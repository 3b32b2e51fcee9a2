/** The directory cache as the program links it: entries in the heap, each
    pointing to its next sibling and its first child. */
module DirectoryEntries {
  import opened Forests

  class DirectoryEntry {
    /** The index of the inode that the entry points to. */
    const inode: nat
    const name: CStr
    var nextSibling: DirectoryEntry?
    var maybeChildren: DirectoryEntry?
    var isDirty: bool

    constructor (inode: nat, name: CStr)
      ensures this.inode == inode && this.name == name
      ensures nextSibling == null && maybeChildren == null && isDirty
    {
      this.inode := inode;
      this.name := name;
      nextSibling := null;
      maybeChildren := null;
      isDirty := true;
    }
  }

  // ---------- the entries behind a pointer ----------

  /** Which entries hang together, and how. */
  datatype Shape = NoEntry | AnEntry(entry: DirectoryEntry, kids: Shape, sib: Shape)

  function Nodes(s: Shape): set<DirectoryEntry> {
    if s.NoEntry? then {} else {s.entry} + Nodes(s.kids) + Nodes(s.sib)
  }

  /** No entry hangs in two places. */
  predicate Distinct(s: Shape) {
    s.AnEntry? ==>
      && s.entry !in Nodes(s.kids) && s.entry !in Nodes(s.sib) && Nodes(s.kids) !! Nodes(s.sib)
      && Distinct(s.kids) && Distinct(s.sib)
  }

  /** The mutable fields of an entry, and of all entries of a cache. */
  datatype Cell = Cell(next: DirectoryEntry?, kids: DirectoryEntry?, dirty: bool)

  type Snapshot = map<DirectoryEntry, Cell>

  /** The entries hold what the snapshot says. */
  ghost predicate Describes(h: Snapshot)
    reads h.Keys
  {
    forall e :: e in h ==> e.nextSibling == h[e].next && e.maybeChildren == h[e].kids && e.isDirty == h[e].dirty
  }

  /** The pointer d leads to a list of siblings of this shape. */
  predicate Linked(h: Snapshot, d: DirectoryEntry?, s: Shape) {
    match s
    case NoEntry => d == null
    case AnEntry(e, kids, sib) => d == e && e in h && Linked(h, h[e].kids, kids) && Linked(h, h[e].next, sib)
  }

  /** The cache as a value. */
  function ViewOf(h: Snapshot, s: Shape): (f: Forest)
    ensures f.Nil? <==> s.NoEntry?
  {
    match s
    case NoEntry => Nil
    case AnEntry(e, kids, sib) => Node(e.inode, e.name, e in h && h[e].dirty, ViewOf(h, kids), ViewOf(h, sib))
  }

  lemma {:induction false} LinkedNodes(h: Snapshot, d: DirectoryEntry?, s: Shape)
    requires Linked(h, d, s)
    ensures Nodes(s) <= h.Keys && (d == null <==> s.NoEntry?)
    decreases s
  {
    if s.AnEntry? {
      LinkedNodes(h, h[s.entry].kids, s.kids);
      LinkedNodes(h, h[s.entry].next, s.sib);
    }
  }

  /** Only the entries of the shape matter. */
  lemma {:induction false} ShapeFrame(h: Snapshot, h': Snapshot, d: DirectoryEntry?, s: Shape)
    requires forall e :: e in Nodes(s) ==> e in h && e in h' && h[e] == h'[e]
    ensures Linked(h, d, s) == Linked(h', d, s) && ViewOf(h, s) == ViewOf(h', s)
    decreases s
  {
    if s.AnEntry? {
      ShapeFrame(h, h', h[s.entry].kids, s.kids);
      ShapeFrame(h, h', h[s.entry].next, s.sib);
    }
  }

  /** The entries of one list of siblings. */
  function TopNodes(s: Shape): (ns: set<DirectoryEntry>)
    ensures ns <= Nodes(s)
  {
    if s.NoEntry? then {} else {s.entry} + TopNodes(s.sib)
  }

  // ---------- adding a child ----------

  function LastSibling(s: Shape): (e: DirectoryEntry)
    requires s.AnEntry?
    ensures e in TopNodes(s)
  {
    if s.sib.NoEntry? then s.entry else LastSibling(s.sib)
  }

  function AppendShape(s: Shape, e: DirectoryEntry): Shape {
    if s.NoEntry? then AnEntry(e, NoEntry, NoEntry) else s.(sib := AppendShape(s.sib, e))
  }

  lemma {:induction false} AppendShapeNodes(s: Shape, e: DirectoryEntry)
    requires Distinct(s) && e !in Nodes(s)
    ensures Nodes(AppendShape(s, e)) == Nodes(s) + {e} && Distinct(AppendShape(s, e))
  {
    if s.AnEntry? {
      AppendShapeNodes(s.sib, e);
    }
  }

  /** Linking a new entry behind the last sibling. */
  lemma {:induction false} LinkedAppend(h: Snapshot, h': Snapshot, d: DirectoryEntry?, s: Shape, e: DirectoryEntry)
    requires Linked(h, d, s) && Distinct(s) && s.AnEntry? && e !in Nodes(s)
    requires forall n :: n in Nodes(s) ==> n in h && n in h' && (n != LastSibling(s) ==> h'[n] == h[n])
    requires h'[LastSibling(s)] == h[LastSibling(s)].(next := e) && e in h' && h'[e] == Cell(null, null, true)
    ensures Linked(h', d, AppendShape(s, e))
    ensures ViewOf(h', AppendShape(s, e)) == Append(ViewOf(h, s), NewEntry(e.inode, e.name))
  {
    ShapeFrame(h, h', h[s.entry].kids, s.kids);
    if s.sib.AnEntry? {
      LinkedAppend(h, h', h[s.entry].next, s.sib, e);
    }
  }

  /** The last of a list of siblings. */
  method LastEntry(first: DirectoryEntry, ghost kids: Shape, ghost h: Snapshot) returns (curr: DirectoryEntry)
    requires Describes(h) && kids.AnEntry? && Linked(h, first, kids)
    ensures curr == LastSibling(kids)
  {
    curr := first;
    ghost var rest := kids;
    while curr.nextSibling != null
      invariant rest.AnEntry? && Linked(h, curr, rest) && LastSibling(rest) == LastSibling(kids)
      decreases rest
    {
      curr := curr.nextSibling;
      rest := rest.sib;
    }
  }

  /** Adds an entry at the end of the children of `parent`. */
  method AddChild(parent: DirectoryEntry, name: CStr, inode: nat, ghost kids: Shape, ghost h: Snapshot)
    returns (newkid: DirectoryEntry, ghost h': Snapshot)
    requires Describes(h) && parent in h && parent !in Nodes(kids) && Distinct(kids) && Linked(h, h[parent].kids, kids)
    modifies parent`maybeChildren, Nodes(kids)`nextSibling
    ensures fresh(newkid) && newkid !in h && Describes(h') && h'.Keys == h.Keys + {newkid}
    ensures forall e :: e in h && e != parent && e !in Nodes(kids) ==> h'[e] == h[e]
    ensures h'[parent] == h[parent].(kids := h'[parent].kids)
    ensures Nodes(AppendShape(kids, newkid)) == Nodes(kids) + {newkid} && Distinct(AppendShape(kids, newkid))
    ensures Linked(h', h'[parent].kids, AppendShape(kids, newkid))
    ensures ViewOf(h', AppendShape(kids, newkid)) == Append(ViewOf(h, kids), NewEntry(inode, name))
  {
    ghost var known := h.Keys;
    LinkedNodes(h, h[parent].kids, kids);
    newkid := new DirectoryEntry(inode, name);
    AppendShapeNodes(kids, newkid);
    h' := h[newkid := Cell(null, null, true)];
    assert h'.Keys == h.Keys + {newkid};
    if parent.maybeChildren != null {
      var curr := LastEntry(parent.maybeChildren, kids, h);
      curr.nextSibling := newkid;
      assert curr in h;
      h' := h'[curr := h[curr].(next := newkid)];
      assert h'.Keys == h.Keys + {newkid};
      LinkedAppend(h, h', parent.maybeChildren, kids, newkid);
    } else {
      parent.maybeChildren := newkid;
      h' := h'[parent := h[parent].(kids := newkid)];
    }
  }
}
