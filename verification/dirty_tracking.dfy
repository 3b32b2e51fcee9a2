/** Which entries of a cache can be dirty between two commands, and what a flush
    does in each of those states. */
module DirtyTracking {
  import opened DirectoryText
  import opened Forests

  predicate IsClean(f: Forest) {
    Bare(f) == f
  }

  /** A list of siblings whose last entry is new and dirty. */
  predicate OnlyLastDirty(f: Forest) {
    f.Node? &&
    if f.sib.Nil? then f.dirty && f.kids.Nil?
    else !f.dirty && IsClean(f.kids) && OnlyLastDirty(f.sib)
  }

  /** Clean but for the last child of the entry that the path leads to. */
  predicate PendingAt(f: Forest, path: Path)
    decreases |path|
  {
    f.Node? && !f.dirty &&
    if path == [] then OnlyLastDirty(f.kids) && IsClean(f.sib)
    else if path[0] == ToKids then PendingAt(f.kids, path[1..]) && IsClean(f.sib)
    else IsClean(f.kids) && PendingAt(f.sib, path[1..])
  }

  /** A list of entries none of which has been entered since they were made. */
  predicate AllNew(f: Forest) {
    f.Node? ==> f.dirty && f.kids.Nil? && AllNew(f.sib)
  }

  lemma {:induction false} CleanIsTidy(f: Forest)
    requires IsClean(f)
    ensures Tidy(f) && FlushTargets(f) == {} && !AnyDirty(f)
    decreases Size(f)
  {
    if f.Node? {
      CleanIsTidy(f.sib);
      CleanIsTidy(f.kids);
    }
  }

  lemma {:induction false} CleanedOfLastDirty(f: Forest)
    requires OnlyLastDirty(f)
    ensures AnyDirty(f) && Cleaned(f) == Bare(f)
  {
    if f.sib.Node? {
      CleanedOfLastDirty(f.sib);
    }
  }

  lemma {:induction false} CleanedOfNew(f: Forest)
    requires AllNew(f)
    ensures (f.Node? ==> AnyDirty(f)) && Cleaned(f) == Bare(f)
  {
    if f.Node? {
      CleanedOfNew(f.sib);
    }
  }

  lemma {:induction false} PendingHasNoDirtySibling(f: Forest, path: Path)
    requires PendingAt(f, path)
    ensures !AnyDirty(f)
    decreases |path|
  {
    if path != [] && path[0] == ToSib {
      PendingHasNoDirtySibling(f.sib, path[1..]);
    } else {
      CleanIsTidy(f.sib);
    }
  }

  /** With one pending child a flush from above reaches its directory, writes
      that directory and nothing else, and leaves the whole cache clean. */
  lemma {:induction false} PendingIsTidy(f: Forest, path: Path)
    requires PendingAt(f, path)
    ensures Tidy(f) && At(f, path).Node? && FlushTargets(f) == {At(f, path).num}
    decreases |path|
  {
    if path == [] {
      CleanIsTidy(f.sib);
      CleanedOfLastDirty(f.kids);
    } else if path[0] == ToKids {
      CleanIsTidy(f.sib);
      PendingHasNoDirtySibling(f.kids, path[1..]);
      PendingIsTidy(f.kids, path[1..]);
    } else {
      CleanIsTidy(f.kids);
      PendingIsTidy(f.sib, path[1..]);
    }
  }

  /** Loading leaves every new child dirty; the flush that follows writes the
      directory just loaded and leaves the cache clean. */
  lemma LoadedIsTidy(f: Forest)
    requires f.Node? && f.kids.Node? && AllNew(f.kids) && IsClean(f.sib)
    ensures Tidy(f) && FlushTargets(f) == {f.num}
  {
    CleanIsTidy(f.sib);
    CleanedOfNew(f.kids);
    BareEntries(f.kids);
    CleanIsTidy(Cleaned(f.kids));
  }

  lemma {:induction false} AppendNew(f: Forest, entry: Forest)
    requires AllNew(f) && AllNew(entry)
    ensures AllNew(Append(f, entry))
  {
    if f.Node? {
      AppendNew(f.sib, entry);
    }
  }

  lemma {:induction false} LoadNew(f: Forest, es: seq<Entry>, addr: nat)
    requires AllNew(f) && forall i :: 0 <= i < |es| ==> 0 <= es[i].num
    ensures AllNew(Load(f, es, addr))
    decreases |es|
  {
    if es != [] {
      var entry := NewEntry(es[0].num, CStr(addr, es[0].name));
      AppendNew(f, entry);
      LoadNew(Append(f, entry), es[1..], addr + 1);
    }
  }

  lemma {:induction false} AppendPending(f: Forest, entry: Forest)
    requires IsClean(f) && f.Node? && entry.Node? && AllNew(entry) && entry.sib.Nil?
    ensures OnlyLastDirty(Append(f, entry))
  {
    if f.sib.Node? {
      AppendPending(f.sib, entry);
    }
  }

  /** Adding a child to a cached directory of a clean cache. */
  lemma {:induction false} AddIsPending(f: Forest, path: Path, entry: Forest)
    requires IsClean(f) && At(f, path).Node? && At(f, path).kids.Node?
    requires entry.Node? && AllNew(entry) && entry.sib.Nil?
    ensures PendingAt(Replace(f, path, At(f, path).(kids := Append(At(f, path).kids, entry))), path)
    decreases |path|
  {
    if path == [] {
      AppendPending(f.kids, entry);
    } else if path[0] == ToKids {
      AddIsPending(f.kids, path[1..], entry);
    } else {
      AddIsPending(f.sib, path[1..], entry);
    }
  }

  lemma {:induction false} AtOfClean(f: Forest, path: Path)
    requires IsClean(f)
    ensures IsClean(At(f, path)) && Replace(f, path, At(f, path)) == f
    decreases |path|
  {
    if path != [] && f.Node? {
      AtOfClean(f.kids, path[1..]);
      AtOfClean(f.sib, path[1..]);
    }
  }

  lemma {:induction false} AtOfPending(f: Forest, path: Path)
    requires PendingAt(f, path)
    ensures PendingAt(At(f, path), []) && Replace(f, path, Bare(At(f, path))) == Bare(f)
    decreases |path|
  {
    if path != [] {
      if path[0] == ToKids {
        AtOfPending(f.kids, path[1..]);
      } else {
        AtOfPending(f.sib, path[1..]);
      }
    }
  }

  lemma {:induction false} ReplaceInClean(f: Forest, path: Path, g: Forest)
    requires IsClean(f) && IsClean(g)
    ensures IsClean(Replace(f, path, g))
    decreases |path|
  {
    if path != [] && f.Node? {
      ReplaceInClean(f.kids, path[1..], g);
      ReplaceInClean(f.sib, path[1..], g);
    }
  }

  lemma {:induction false} AtOfReplace(f: Forest, path: Path, g: Forest)
    requires At(f, path).Node?
    ensures At(Replace(f, path, g), path) == g
    decreases |path|
  {
    if path != [] {
      if path[0] == ToKids {
        AtOfReplace(f.kids, path[1..], g);
      } else {
        AtOfReplace(f.sib, path[1..], g);
      }
    }
  }

  // ---------- the directories that have been loaded ----------

  function Loaded(f: Forest): set<nat> {
    if f.Nil? then {}
    else Loaded(f.kids) + Loaded(f.sib) + (if f.kids.Node? then {f.num} else {})
  }

  lemma {:induction false} LoadedOfBare(f: Forest)
    ensures Loaded(Bare(f)) == Loaded(f)
  {
    if f.Node? {
      LoadedOfBare(f.kids);
      LoadedOfBare(f.sib);
    }
  }

  lemma {:induction false} NewIsNotLoaded(f: Forest)
    requires AllNew(f)
    ensures Loaded(f) == {}
  {
    if f.Node? {
      NewIsNotLoaded(f.sib);
    }
  }

  lemma {:induction false} LoadedAt(f: Forest, path: Path)
    ensures Loaded(At(f, path)) <= Loaded(f)
    decreases |path|
  {
    if path != [] && f.Node? {
      LoadedAt(f.kids, path[1..]);
      LoadedAt(f.sib, path[1..]);
    }
  }

  lemma {:induction false} LoadedOfReplace(f: Forest, path: Path, g: Forest)
    requires At(f, path).Node?
    ensures Loaded(Replace(f, path, g)) <= Loaded(f) + Loaded(g)
    decreases |path|
  {
    if path != [] {
      if path[0] == ToKids {
        LoadedOfReplace(f.kids, path[1..], g);
      } else {
        LoadedOfReplace(f.sib, path[1..], g);
      }
    }
  }

  lemma {:induction false} LoadedOfAppend(f: Forest, entry: Forest)
    ensures Loaded(Append(f, entry)) == Loaded(f) + Loaded(entry)
  {
    if f.Node? {
      LoadedOfAppend(f.sib, entry);
    }
  }
}
