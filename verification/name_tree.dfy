/** The tree of names that the shell shows, and what it means for a partly
    loaded cache to agree with it. */
module NameTrees {
  import opened DirectoryText
  import opened Forests

  /** Directory 0 is the root; directory c lists its children by name and number
      in the order of their creation and has parent par[c]. */
  datatype Tree = Tree(dirs: seq<seq<Entry>>, par: seq<nat>, cwd: nat)

  const EMPTY_TREE: Tree := Tree([[]], [0], 0)

  // ---------- the commands on the tree ----------

  function MakeDirectory(t: Tree, name: Name): (t': Tree)
    requires t.cwd < |t.dirs|
    ensures t'.cwd == t.cwd && |t'.dirs| == |t.dirs| + 1
  {
    var c := |t.dirs|;
    t.(dirs := t.dirs[t.cwd := t.dirs[t.cwd] + [Entry(name, c)]] + [[]], par := t.par + [t.cwd])
  }

  /** The first child with the name, or 0, which is nobody's child. */
  function FindChild(es: seq<Entry>, name: Name): int {
    if es == [] then 0
    else if es[0].name == name then es[0].num
    else FindChild(es[1..], name)
  }

  function Names(es: seq<Entry>): (ns: seq<Name>)
    ensures |ns| == |es| && forall i :: 0 <= i < |es| ==> ns[i] == es[i].name
  {
    seq(|es|, i requires 0 <= i < |es| => es[i].name)
  }

  // ---------- well-formed trees ----------

  /** Child i of directory c. */
  function ChildAt(t: Tree, c: nat, i: nat): Entry
    requires c < |t.dirs| && i < |t.dirs[c]|
  {
    t.dirs[c][i]
  }

  ghost predicate IsTree(t: Tree) {
    var sized := |t.par| == |t.dirs| > 0 && t.cwd < |t.dirs|;
    var up := forall c :: 0 < c < |t.par| ==> t.par[c] < c;
    var down := sized && forall c, i :: 0 <= c < |t.dirs| && 0 <= i < |t.dirs[c]| ==>
      c < ChildAt(t, c, i).num < |t.dirs| && t.par[ChildAt(t, c, i).num] == c;
    var once := forall c, i, j :: 0 <= c < |t.dirs| && 0 <= i < j < |t.dirs[c]| ==>
      ChildAt(t, c, i).num != ChildAt(t, c, j).num;
    var holds := sized && up && down && once;
    holds
  }

  lemma MakeDirectoryIsTree(t: Tree, name: Name)
    requires IsTree(t)
    ensures IsTree(MakeDirectory(t, name))
  {
    var t' := MakeDirectory(t, name);
    forall c, i | 0 <= c < |t'.dirs| && 0 <= i < |t'.dirs[c]|
      ensures ChildAt(t', c, i) == if c == t.cwd && i == |t.dirs[c]| then Entry(name, |t.dirs|) else ChildAt(t, c, i)
    {
    }
  }

  lemma IsTreeAnywhere(t: Tree, c: nat)
    requires IsTree(t) && c < |t.dirs|
    ensures IsTree(t.(cwd := c))
  {
    forall d, i | 0 <= d < |t.dirs| && 0 <= i < |t.dirs[d]|
      ensures ChildAt(t.(cwd := c), d, i) == ChildAt(t, d, i)
    {
    }
  }

  lemma {:induction false} FindChildIsChild(t: Tree, c: nat, i: nat, name: Name)
    requires IsTree(t) && c < |t.dirs| && i <= |t.dirs[c]|
    ensures var k := FindChild(t.dirs[c][i..], name);
            k == 0 || (c < k < |t.dirs| && t.par[k] == c)
    decreases |t.dirs[c]| - i
  {
    if i < |t.dirs[c]| {
      assert t.dirs[c][i..][0] == ChildAt(t, c, i) && t.dirs[c][i..][1..] == t.dirs[c][i + 1..];
      FindChildIsChild(t, c, i + 1, name);
    }
  }

  /** What directory c holds once cached: its "." entry and its children. */
  function ListingOf(t: Tree, c: nat): seq<Entry>
    requires c < |t.dirs|
  {
    [Entry(DOT_NAME, c)] + t.dirs[c]
  }

  /** c lies at or below a. */
  predicate Below(t: Tree, c: nat, a: nat)
    decreases c
  {
    c == a || (c > a && c < |t.par| && t.par[c] < c && Below(t, t.par[c], a))
  }

  lemma {:induction false} BelowParent(t: Tree, k: nat, a: nat)
    requires IsTree(t) && 0 < a < |t.par| && Below(t, k, a)
    ensures k >= a && Below(t, k, t.par[a])
    decreases k
  {
    if k > a {
      BelowParent(t, t.par[k], a);
    }
  }

  lemma {:induction false} BelowIsLarger(t: Tree, k: nat, a: nat)
    requires Below(t, k, a)
    ensures k >= a
  {
  }

  /** Nothing lies below two different siblings. */
  lemma {:induction false} BelowOneSibling(t: Tree, k: nat, a: nat, b: nat)
    requires IsTree(t) && 0 < a < |t.par| && 0 < b < |t.par| && a != b && t.par[a] == t.par[b]
    requires Below(t, k, a)
    ensures !Below(t, k, b)
    decreases k
  {
    if k == b {
      assert Below(t, t.par[b], a);
      BelowIsLarger(t, t.par[b], a);
    } else if k == a {
    } else {
      BelowOneSibling(t, t.par[k], a, b);
    }
  }

  // ---------- caches that agree with a tree ----------

  /** The list of siblings f shows the entries es of directory p (-1 above the
      root). Its "." entry points to p itself and is never entered; every other
      entry is either not cached or shows its own directory, and its name is a
      string of its own, never the literal or its child's ".". */
  predicate Shows(f: Forest, p: int, es: seq<Entry>, t: Tree, next: nat)
    decreases f
  {
    if f.Nil? then es == []
    else
      && es != [] && Entry(f.name.chars, f.num) == es[0]
      && f.num < |t.dirs| && f.name.addr < next
      && (if f.num <= p then f.kids.Nil?
          else
            && f.name.addr > DOT_LITERAL
            && (f.kids.Node? ==> f.kids.name.addr != f.name.addr && Shows(f.kids, f.num, ListingOf(t, f.num), t, next)))
      && Shows(f.sib, p, es[1..], t, next)
  }

  const ROOT_LISTING: seq<Entry> := [Entry(ROOT_NAME, 0)]

  /** c is a child of p, or the root when p is -1. */
  predicate IsChild(t: Tree, c: int, p: int) {
    p < c && 0 <= c < |t.par| && (p >= 0 ==> t.par[c] == p)
  }

  /** Entries that can stand in one directory p: "." for p itself, children of
      p, no number twice. */
  ghost predicate AreSiblings(es: seq<Entry>, p: int, t: Tree) {
    && (forall i :: 0 <= i < |es| ==> es[i].num == p || IsChild(t, es[i].num, p))
    && (forall i, j :: 0 <= i < j < |es| ==> es[i].num != es[j].num)
    && (p < 0 ==> |es| <= 1)
  }

  lemma ListingIsSiblings(t: Tree, c: nat)
    requires IsTree(t) && c < |t.dirs|
    ensures AreSiblings(ListingOf(t, c), c, t)
    ensures forall i :: 0 <= i < |ListingOf(t, c)| && ListingOf(t, c)[i].num <= c ==> i == 0
  {
    var es := ListingOf(t, c);
    assert forall i :: 1 <= i < |es| ==> es[i] == ChildAt(t, c, i - 1);
  }

  /** No real entry of the list has k at or below it. */
  ghost predicate NoneAbove(es: seq<Entry>, p: int, t: Tree, k: nat) {
    forall i :: 0 <= i < |es| && es[i].num > p ==> es[i].num >= 0 && !Below(t, k, es[i].num)
  }

  lemma ListingNotAbove(t: Tree, c: nat, k: nat)
    requires IsTree(t) && c < |t.dirs| && (k == c || !Below(t, k, c))
    ensures NoneAbove(ListingOf(t, c), c, t, k)
  {
    forall i | 0 <= i < |ListingOf(t, c)| && ListingOf(t, c)[i].num > c
      ensures !Below(t, k, ListingOf(t, c)[i].num)
    {
      var x := ChildAt(t, c, i - 1).num;
      if Below(t, k, x) {
        BelowParent(t, k, x);
      }
    }
  }

  /** Siblings of an entry above k have nothing to do with k. */
  lemma OthersNotAbove(es: seq<Entry>, p: int, t: Tree, k: nat, i: nat)
    requires IsTree(t) && AreSiblings(es, p, t)
    requires i < |es| && es[i].num > p && Below(t, k, es[i].num)
    ensures forall j :: 0 <= j < |es| && j != i && es[j].num > p ==> es[j].num >= 0 && !Below(t, k, es[j].num)
  {
    forall j | 0 <= j < |es| && j != i && es[j].num > p
      ensures es[j].num >= 0 && !Below(t, k, es[j].num)
    {
      BelowOneSibling(t, k, es[i].num, es[j].num);
    }
  }

  // ---------- pointers to directories ----------

  /** The pointer leads to the real entry of directory c. */
  predicate LeadsTo(f: Forest, p: int, path: Path, c: nat)
    decreases |path|
  {
    && f.Node?
    && if path == [] then f.num == c && f.num > p
       else if path[0] == ToKids then f.num > p && LeadsTo(f.kids, f.num, path[1..], c)
       else LeadsTo(f.sib, p, path[1..], c)
  }

  lemma {:induction false} LeadsToEntry(f: Forest, p: int, path: Path, c: nat)
    requires LeadsTo(f, p, path, c)
    ensures At(f, path).Node? && At(f, path).num == c
    decreases |path|
  {
    if path != [] {
      if path[0] == ToKids {
        LeadsToEntry(f.kids, f.num, path[1..], c);
      } else {
        LeadsToEntry(f.sib, p, path[1..], c);
      }
    }
  }

  /** A pointer to directory k runs through an entry that k lies at or below. */
  lemma {:induction false} LeadsBelow(f: Forest, p: int, es: seq<Entry>, t: Tree, next: nat, path: Path, k: nat)
    returns (i: nat)
    requires IsTree(t) && AreSiblings(es, p, t) && Shows(f, p, es, t, next) && LeadsTo(f, p, path, k)
    ensures i < |es| && es[i].num > p && es[i].num >= 0 && Below(t, k, es[i].num)
    ensures path != [] && path[0] == ToSib ==> i > 0
    ensures path == [] || path[0] == ToKids ==> i == 0
    decreases |path|
  {
    if path == [] {
      i := 0;
    } else if path[0] == ToKids {
      i := 0;
      ListingIsSiblings(t, f.num);
      var j := LeadsBelow(f.kids, f.num, ListingOf(t, f.num), t, next, path[1..], k);
      BelowParent(t, k, ListingOf(t, f.num)[j].num);
    } else {
      i := LeadsBelow(f.sib, p, es[1..], t, next, path[1..], k);
      i := i + 1;
    }
  }

  /** The entry that a pointer to k passes, and those beside it. */
  lemma PathSides(f: Forest, p: int, es: seq<Entry>, t: Tree, next: nat, path: Path, k: nat)
    requires IsTree(t) && AreSiblings(es, p, t) && Shows(f, p, es, t, next) && LeadsTo(f, p, path, k)
    ensures AreSiblings(es[1..], p, t)
    ensures path == [] || path[0] == ToKids ==> NoneAbove(es[1..], p, t, k)
    ensures path != [] && path[0] == ToSib ==> f.num != k && (f.num > p ==> !Below(t, k, f.num))
    ensures path != [] && path[0] == ToKids ==> f.num < k && k > 0
  {
    var i := LeadsBelow(f, p, es, t, next, path, k);
    OthersNotAbove(es, p, t, k, i);
    if path != [] && path[0] == ToKids {
      ListingIsSiblings(t, f.num);
      var j := LeadsBelow(f.kids, f.num, ListingOf(t, f.num), t, next, path[1..], k);
      BelowIsLarger(t, k, ListingOf(t, f.num)[j].num);
    }
    if path != [] && path[0] == ToSib {
      assert es[0].num == f.num;
      BelowIsLarger(t, k, es[i].num);
    }
  }

  /** The cache under its root entry shows the tree, and the pointer is to the
      real entry of the current directory. */
  predicate ShowsTree(cache: Forest, cur: Path, t: Tree, next: nat) {
    var holds := cache.Node? && Shows(cache, -1, ROOT_LISTING, t, next) && LeadsTo(cache, -1, cur, t.cwd);
    holds
  }

  // ---------- growing the tree ----------

  /** A list that has nothing to do with directory t.cwd shows the same entries
      after a child is added there. */
  lemma {:induction false} ShowsElsewhere(f: Forest, p: int, es: seq<Entry>, t: Tree, next: nat, name: Name, next': nat)
    requires IsTree(t) && Shows(f, p, es, t, next) && next <= next'
    requires NoneAbove(es, p, t, t.cwd)
    ensures Shows(f, p, es, MakeDirectory(t, name), next')
    decreases f
  {
    if f.Node? {
      ShowsElsewhere(f.sib, p, es[1..], t, next, name, next');
      if f.kids.Node? {
        assert es[0].num == f.num;
        ListingNotAbove(t, f.num, t.cwd);
        ShowsElsewhere(f.kids, f.num, ListingOf(t, f.num), t, next, name, next');
      }
    }
  }

  lemma {:induction false} ShowsAppended(f: Forest, p: int, es: seq<Entry>, entry: Forest, t: Tree, next: nat)
    requires Shows(f, p, es, t, next)
    requires entry.Node? && entry.kids.Nil? && entry.sib.Nil? && entry.num < |t.dirs| && entry.name.addr < next
    requires entry.num > p ==> entry.name.addr > DOT_LITERAL
    ensures Shows(Append(f, entry), p, es + [Entry(entry.name.chars, entry.num)], t, next)
    decreases f
  {
    if f.Nil? {
      assert (es + [Entry(entry.name.chars, entry.num)])[1..] == [];
    } else {
      ShowsAppended(f.sib, p, es[1..], entry, t, next);
      assert (es + [Entry(entry.name.chars, entry.num)])[1..] == es[1..] + [Entry(entry.name.chars, entry.num)];
    }
  }

  /** The cache after a child is added at the current directory shows the tree
      after the child is made there. */
  lemma {:induction false} ShowsMade(f: Forest, p: int, es: seq<Entry>, t: Tree, next: nat, path: Path, name: Name)
    requires IsTree(t) && AreSiblings(es, p, t) && Shows(f, p, es, t, next) && LeadsTo(f, p, path, t.cwd)
    requires At(f, path).Node? && At(f, path).kids.Node? && next >= FIRST_ADDRESS
    ensures var entry := NewEntry(|t.dirs|, CStr(next, name));
            var g := At(f, path).(kids := Append(At(f, path).kids, entry));
            && Shows(Replace(f, path, g), p, es, MakeDirectory(t, name), next + 1)
            && LeadsTo(Replace(f, path, g), p, path, t.cwd)
    decreases |path|
  {
    var t' := MakeDirectory(t, name);
    var entry := NewEntry(|t.dirs|, CStr(next, name));
    PathSides(f, p, es, t, next, path, t.cwd);
    if path == [] {
      ListingNotAbove(t, t.cwd, t.cwd);
      ShowsElsewhere(f.kids, t.cwd, ListingOf(t, t.cwd), t, next, name, next + 1);
      ShowsElsewhere(f.sib, p, es[1..], t, next, name, next + 1);
      ShowsAppended(f.kids, t.cwd, ListingOf(t, t.cwd), entry, t', next + 1);
      assert ListingOf(t', t.cwd) == ListingOf(t, t.cwd) + [Entry(name, |t.dirs|)];
    } else if path[0] == ToKids {
      ShowsElsewhere(f.sib, p, es[1..], t, next, name, next + 1);
      ListingIsSiblings(t, f.num);
      ShowsMade(f.kids, f.num, ListingOf(t, f.num), t, next, path[1..], name);
      assert ListingOf(t', f.num) == ListingOf(t, f.num);
    } else {
      if f.kids.Node? {
        ListingNotAbove(t, f.num, t.cwd);
        ShowsElsewhere(f.kids, f.num, ListingOf(t, f.num), t, next, name, next + 1);
        assert ListingOf(t', f.num) == ListingOf(t, f.num);
      }
      ShowsMade(f.sib, p, es[1..], t, next, path[1..], name);
    }
  }

  // ---------- replacing an entry ----------

  lemma {:induction false} ShowsLater(f: Forest, p: int, es: seq<Entry>, t: Tree, next: nat, next': nat)
    requires Shows(f, p, es, t, next) && next <= next'
    ensures Shows(f, p, es, t, next')
    decreases f
  {
    if f.Node? {
      ShowsLater(f.sib, p, es[1..], t, next, next');
      if f.kids.Node? {
        ShowsLater(f.kids, f.num, ListingOf(t, f.num), t, next, next');
      }
    }
  }

  /** What the entry at the end of a pointer shows. */
  lemma {:induction false} ShowsAt(f: Forest, p: int, es: seq<Entry>, t: Tree, next: nat, path: Path, k: nat)
    returns (p': int, es': seq<Entry>)
    requires Shows(f, p, es, t, next) && LeadsTo(f, p, path, k)
    ensures At(f, path).Node? && At(f, path).num == k > p' && Shows(At(f, path), p', es', t, next)
    decreases |path|
  {
    if path == [] {
      p', es' := p, es;
    } else if path[0] == ToKids {
      p', es' := ShowsAt(f.kids, f.num, ListingOf(t, f.num), t, next, path[1..], k);
    } else {
      p', es' := ShowsAt(f.sib, p, es[1..], t, next, path[1..], k);
    }
  }

  /** A list of siblings with one entry replaced by one that has the same number
      and name, siblings with the same contents, and shows its directory. */
  lemma {:induction false} ShowsReplaced(f: Forest, p: int, es: seq<Entry>, t: Tree, next: nat, path: Path, k: nat,
                                         g: Forest, next': nat)
    requires Shows(f, p, es, t, next) && LeadsTo(f, p, path, k) && next <= next'
    requires At(f, path).Node? && k < |t.dirs| && g.Node? && g.num == k && g.name == At(f, path).name
    requires forall q: int, fs: seq<Entry> :: Shows(At(f, path).sib, q, fs, t, next) ==> Shows(g.sib, q, fs, t, next')
    requires g.kids.Node? && g.kids.name.addr != g.name.addr && Shows(g.kids, k, ListingOf(t, k), t, next')
    ensures Shows(Replace(f, path, g), p, es, t, next')
    ensures LeadsTo(Replace(f, path, g), p, path, k)
    decreases |path|
  {
    if path == [] {
    } else if path[0] == ToKids {
      ShowsLater(f.sib, p, es[1..], t, next, next');
      ShowsReplaced(f.kids, f.num, ListingOf(t, f.num), t, next, path[1..], k, g, next');
    } else {
      if f.kids.Node? {
        ShowsLater(f.kids, f.num, ListingOf(t, f.num), t, next, next');
      }
      ShowsReplaced(f.sib, p, es[1..], t, next, path[1..], k, g, next');
    }
  }

  /** Loading a listing shows it. */
  lemma {:induction false} ShowsLoaded(f: Forest, p: int, shown: seq<Entry>, es: seq<Entry>, t: Tree, addr: nat)
    requires Shows(f, p, shown, t, addr) && addr >= FIRST_ADDRESS
    requires forall i :: 0 <= i < |es| ==> 0 <= es[i].num < |t.dirs|
    ensures Shows(Load(f, es, addr), p, shown + es, t, addr + |es|)
    decreases |es|
  {
    if es == [] {
      assert shown + es == shown;
    } else {
      var entry := NewEntry(es[0].num, CStr(addr, es[0].name));
      ShowsLater(f, p, shown, t, addr, addr + 1);
      ShowsAppended(f, p, shown, entry, t, addr + 1);
      ShowsLoaded(Append(f, entry), p, shown + [es[0]], es[1..], t, addr + 1);
      assert shown + [es[0]] + es[1..] == shown + es;
    }
  }

  lemma {:induction false} LoadKeepsFirst(f: Forest, es: seq<Entry>, addr: nat)
    requires forall i :: 0 <= i < |es| ==> 0 <= es[i].num
    ensures f.Node? ==> Load(f, es, addr).Node? && Load(f, es, addr).name == f.name
    ensures f.Nil? && es != [] ==> Load(f, es, addr).Node? && Load(f, es, addr).name.addr == addr
    decreases |es|
  {
    if es != [] {
      LoadKeepsFirst(Append(f, NewEntry(es[0].num, CStr(addr, es[0].name))), es[1..], addr + 1);
    }
  }

  // ---------- the key of a directory's entry ----------

  /** Away from k, no entry has number k at all. */
  lemma {:induction false} KeyAbsent(f: Forest, p: int, es: seq<Entry>, t: Tree, next: nat, k: nat, addr: nat)
    requires IsTree(t) && Shows(f, p, es, t, next) && NoneAbove(es, p, t, k)
    requires forall i :: 0 <= i < |es| && es[i].num <= p ==> es[i].num == p && (p == k ==> i == 0)
    requires p == k && es != [] && es[0].num == p ==> f.name.addr != addr
    ensures Absent(f, k, addr)
    decreases f
  {
    if f.Node? {
      assert es[0].num == f.num;
      KeyAbsent(f.sib, p, es[1..], t, next, k, addr);
      if f.kids.Node? {
        assert !Below(t, k, f.num) && f.num != k;
        ListingNotAbove(t, f.num, k);
        ListingIsSiblings(t, f.num);
        KeyAbsent(f.kids, f.num, ListingOf(t, f.num), t, next, k, addr);
      }
    }
  }

  /** The real entry of a directory is the only one with its number and name
      pointer: other directories have other numbers, and its own "." entry has
      another name string. */
  lemma {:induction false} KeyOnlyAt(f: Forest, p: int, es: seq<Entry>, t: Tree, next: nat, path: Path, k: nat)
    requires IsTree(t) && AreSiblings(es, p, t) && Shows(f, p, es, t, next) && LeadsTo(f, p, path, k)
    ensures At(f, path).Node? && At(f, path).num == k && OnlyAt(f, path, k, At(f, path).name.addr)
    decreases |path|
  {
    LeadsToEntry(f, p, path, k);
    var addr := At(f, path).name.addr;
    PathSides(f, p, es, t, next, path, k);
    if path == [] {
      KeyAbsent(f.sib, p, es[1..], t, next, k, addr);
      if f.kids.Node? {
        ListingNotAbove(t, k, k);
        ListingIsSiblings(t, k);
        KeyAbsent(f.kids, k, ListingOf(t, k), t, next, k, addr);
      }
    } else if path[0] == ToKids {
      ListingIsSiblings(t, f.num);
      KeyOnlyAt(f.kids, f.num, ListingOf(t, f.num), t, next, path[1..], k);
      KeyAbsent(f.sib, p, es[1..], t, next, k, addr);
    } else {
      KeyOnlyAt(f.sib, p, es[1..], t, next, path[1..], k);
      if f.kids.Node? {
        ListingNotAbove(t, f.num, k);
        ListingIsSiblings(t, f.num);
        KeyAbsent(f.kids, f.num, ListingOf(t, f.num), t, next, k, addr);
      }
    }
  }

  // ---------- going down and up ----------

  /** A pointer to a directory, then down to one of its cached children. */
  lemma {:induction false} LeadsDown(f: Forest, p: int, path: Path, k: nat, rel: Path, c: nat)
    requires LeadsTo(f, p, path, k) && At(f, path).Node? && LeadsTo(At(f, path).kids, k, rel, c)
    ensures LeadsTo(f, p, path + [ToKids] + rel, c)
    decreases |path|
  {
    if path == [] {
      assert (path + [ToKids] + rel)[1..] == rel;
    } else {
      assert (path + [ToKids] + rel)[1..] == path[1..] + [ToKids] + rel;
      if path[0] == ToKids {
        LeadsDown(f.kids, f.num, path[1..], k, rel, c);
      } else {
        LeadsDown(f.sib, p, path[1..], k, rel, c);
      }
    }
  }

  /** A pointer that stays in one list names a child of the list's directory. */
  lemma {:induction false} SiblingsShareParent(f: Forest, p: int, es: seq<Entry>, t: Tree, next: nat, path: Path,
                                               k: nat)
    requires AreSiblings(es, p, t) && Shows(f, p, es, t, next) && LeadsTo(f, p, path, k)
    requires p >= 0 && ToKids !in path
    ensures k < |t.par| && t.par[k] == p
    decreases |path|
  {
    assert es[0].num == f.num;
    if path != [] {
      SiblingsShareParent(f.sib, p, es[1..], t, next, path[1..], k);
    }
  }

  /** Where a pointer last went down, or nowhere if it never did. */
  function LastDown(path: Path): (r: (bool, Path))
    ensures r.0 <==> ToKids in path
  {
    if path == [] then (false, [])
    else
      var (found, q) := LastDown(path[1..]);
      if found then (true, [path[0]] + q)
      else (path[0] == ToKids, [])
  }

  lemma {:induction false} ParentIsLastDown(here: Path, parent: Path, path: Path)
    ensures ParentOf(here, parent, path) == if LastDown(path).0 then here + LastDown(path).1 else parent
    decreases |path|
  {
    if path != [] {
      var next := if path[0] == ToKids then here else parent;
      ParentIsLastDown(here + [path[0]], next, path[1..]);
      var q := LastDown(path[1..]).1;
      assert here + [path[0]] + q == here + ([path[0]] + q);
      assert here + [] == here;
    }
  }

  /** There the pointer passed the parent. */
  lemma {:induction false} LastDownLeads(f: Forest, p: int, es: seq<Entry>, t: Tree, next: nat, path: Path, k: nat)
    requires IsTree(t) && AreSiblings(es, p, t) && Shows(f, p, es, t, next) && LeadsTo(f, p, path, k)
    requires LastDown(path).0
    ensures k < |t.par| && LeadsTo(f, p, LastDown(path).1, t.par[k])
    decreases |path|
  {
    if path[0] == ToKids {
      ListingIsSiblings(t, f.num);
      if LastDown(path[1..]).0 {
        LastDownLeads(f.kids, f.num, ListingOf(t, f.num), t, next, path[1..], k);
        assert LastDown(path).1[1..] == LastDown(path[1..]).1;
      } else {
        SiblingsShareParent(f.kids, f.num, ListingOf(t, f.num), t, next, path[1..], k);
      }
    } else {
      LastDownLeads(f.sib, p, es[1..], t, next, path[1..], k);
      assert LastDown(path).1[1..] == LastDown(path[1..]).1;
    }
  }

  /** The search for the parent of any directory but the root, in a cache that
      shows a tree, finds the entry of its parent. */
  lemma ParentSearchFinds(root: Forest, t: Tree, next: nat, path: Path, k: nat)
    requires IsTree(t) && root.Node? && Shows(root, -1, ROOT_LISTING, t, next) && LeadsTo(root, -1, path, k)
    requires path != []
    ensures At(root, path).Node?
    ensures var (found, parent) := ParentSearch(root, k, At(root, path).name.addr);
            found && k < |t.par| && LeadsTo(root, -1, parent, t.par[k])
  {
    KeyOnlyAt(root, -1, ROOT_LISTING, t, next, path, k);
    var addr := At(root, path).name.addr;
    assert path[0] == ToKids;
    SearchFinds(root.kids, [ToKids], [], path[1..], k, addr);
    ParentIsLastDown([], [], path);
    assert [] + [ToKids] == [ToKids];
    assert ParentOf([], [], path) == ParentOf([ToKids], [], path[1..]);
    LastDownLeads(root, -1, ROOT_LISTING, t, next, path, k);
    assert [] + LastDown(path).1 == LastDown(path).1;
  }

  /** A pointer is to the root exactly when it goes nowhere. */
  lemma RootPointer(root: Forest, t: Tree, next: nat, path: Path, k: nat)
    requires IsTree(t) && root.Node? && Shows(root, -1, ROOT_LISTING, t, next) && LeadsTo(root, -1, path, k)
    ensures k == 0 <==> path == []
    ensures path != [] ==> path[0] == ToKids
  {
    PathSides(root, -1, ROOT_LISTING, t, next, path, k);
  }

  /** Every entry with cached children is the real entry of its directory. */
  lemma {:induction false} LoadedIsReal(f: Forest, p: int, es: seq<Entry>, t: Tree, next: nat, path: Path)
    requires Shows(f, p, es, t, next) && At(f, path).Node? && At(f, path).kids.Node?
    ensures LeadsTo(f, p, path, At(f, path).num)
    decreases |path|
  {
    if path != [] {
      if path[0] == ToKids {
        LoadedIsReal(f.kids, f.num, ListingOf(t, f.num), t, next, path[1..]);
      } else {
        LoadedIsReal(f.sib, p, es[1..], t, next, path[1..]);
      }
    }
  }

  /** There is one pointer to each directory. */
  lemma {:induction false} LeadsToUnique(f: Forest, p: int, es: seq<Entry>, t: Tree, next: nat, path: Path, path': Path,
                                         k: nat)
    requires IsTree(t) && AreSiblings(es, p, t) && Shows(f, p, es, t, next)
    requires LeadsTo(f, p, path, k) && LeadsTo(f, p, path', k)
    ensures path == path'
    decreases |path|
  {
    PathSides(f, p, es, t, next, path, k);
    PathSides(f, p, es, t, next, path', k);
    var i := LeadsBelow(f, p, es, t, next, path, k);
    var i' := LeadsBelow(f, p, es, t, next, path', k);
    if path != [] && path' != [] && path[0] == path'[0] {
      if path[0] == ToKids {
        ListingIsSiblings(t, f.num);
        LeadsToUnique(f.kids, f.num, ListingOf(t, f.num), t, next, path[1..], path'[1..], k);
      } else {
        LeadsToUnique(f.sib, p, es[1..], t, next, path[1..], path'[1..], k);
      }
      assert path == [path[0]] + path[1..] && path' == [path'[0]] + path'[1..];
    }
  }

  /** A pointer is kept when an entry further down is replaced. */
  lemma {:induction false} LeadsToKept(f: Forest, p: int, path: Path, k: nat, rest: Path, g: Forest)
    requires LeadsTo(f, p, path, k) && rest != []
    ensures LeadsTo(Replace(f, path + rest, g), p, path, k)
    decreases |path|
  {
    if path == [] {
      assert path + rest == rest;
    } else {
      assert (path + rest)[1..] == path[1..] + rest;
      if path[0] == ToKids {
        LeadsToKept(f.kids, f.num, path[1..], k, rest, g);
      } else {
        LeadsToKept(f.sib, p, path[1..], k, rest, g);
      }
    }
  }
}
