/** Sessions of the shell refine sessions on a tree of names: same replies, for
    every run of commands, across any number of unmounts and mounts. */
module Refinement {
  import opened Bytes
  import opened BlockDevices
  import opened DirectoryText
  import opened Forests
  import opened NameTrees
  import opened Metadata
  import opened Shells
  import opened Sessions
  import opened SessionCommands
  import opened SessionMounts

  // ---------- runs on the tree ----------

  lemma StepViewIsTree(w: View, c: Command)
    requires IsTree(w.tree)
    ensures IsTree(StepView(w, c).0.tree)
  {
    var t := w.tree;
    IsTreeAnywhere(t, 0);
    if w.mounted {
      match c
      case Mkdir(name) => MakeDirectoryIsTree(t, name);
      case Cd(name) =>
        FindChildIsChild(t, t.cwd, 0, name);
        assert t.dirs[t.cwd][0..] == t.dirs[t.cwd];
        var next := if name == PARENT_NAME then t.par[t.cwd] else FindChild(t.dirs[t.cwd], name);
        if 0 < next < |t.dirs| {
          IsTreeAnywhere(t, next);
        }
      case _ =>
    }
  }

  ghost function RunView(w: View, cs: seq<Command>): (r: (View, seq<Reply>))
    requires IsTree(w.tree)
    ensures IsTree(r.0.tree)
    decreases |cs|
  {
    if cs == [] then (w, [])
    else
      StepViewIsTree(w, cs[0]);
      var (w1, reply) := StepView(w, cs[0]);
      var (w2, replies) := RunView(w1, cs[1..]);
      (w2, [reply] + replies)
  }

  /** Every command of the run is legal where it is given. */
  ghost predicate LegalRun(w: View, cs: seq<Command>, mb: MasterBlock, meta: nat)
    requires IsTree(w.tree)
    decreases |cs|
  {
    cs == [] ||
      (StepViewIsTree(w, cs[0]);
       Legal(w, cs[0], mb, meta) && LegalRun(StepView(w, cs[0]).0, cs[1..], mb, meta))
  }

  // ---------- one command ----------

  /** The shell stands for the tree, on a device with the given master block. */
  ghost predicate Refines(s: Shell, w: View, meta: nat, mb: MasterBlock) {
    if w.mounted then s.Mounted? && s.live.mb == mb && LiveOk(s.live, w.tree, meta)
    else s.Idle? && IdleOk(s.disk, w.tree, meta, mb)
  }

  lemma LiveBounds(l: Live, t: Tree, meta: nat)
    requires LiveOk(l, t, meta)
    ensures IsTree(t) && l.mb.bytesPerBlock == l.vol.bpb && l.mb.inodeCount == |l.vol.inodes|
  {
  }

  lemma CdOk(l: Live, t: Tree, name: Name, meta: nat)
    requires LiveOk(l, t, meta) && IsTree(t) && name != DOT_NAME
    ensures Enterable(l) && DoCd(l, name).0.Mounted? && DoCd(l, name).0.live.mb == l.mb
    ensures var (w, reply) := StepView(View(t, true), Cd(name));
            LiveOk(DoCd(l, name).0.live, w.tree, meta) && DoCd(l, name).1 == reply
  {
    hide LiveOk, Enterable, DoCd;
    if name == PARENT_NAME {
      CdUpOk(l, t, meta);
    } else {
      var _ := CdDownOk(l, t, name, meta);
    }
    MasterKept(l, name);
  }

  /** Every legal command keeps the refinement and answers as the tree does. */
  lemma StepRefines(s: Shell, w: View, c: Command, meta: nat, mb: MasterBlock)
    requires Refines(s, w, meta, mb) && IsTree(w.tree) && Legal(w, c, mb, meta)
    ensures Refines(Step(s, c).0, StepView(w, c).0, meta, mb)
    ensures Step(s, c).1 == StepView(w, c).1
  {
    hide LiveOk, Enterable, WithChildren, DoCd, DoMkdir, DoMount, DoUnmount, IdleOk;
    var t := w.tree;
    if !w.mounted {
      if c == MountDevice {
        var l := MountOk(s.disk, t, meta, mb);
      }
    } else {
      var l := s.live;
      LiveBounds(l, t, meta);
      match c
      case MountDevice =>
      case Unmount => var disk := UnmountOk(l, t, meta);
      case Mkdir(name) =>
        var l2 := MkdirOk(l, t, name, meta);
        MasterKept(l, name);
      case Ls =>
        var l1 := LsOk(l, t, meta);
        MasterKept(l, []);
      case Cd(name) => CdOk(l, t, name, meta);
    }
  }

  // ---------- whole sessions ----------

  lemma {:induction false} RunRefines(s: Shell, w: View, cs: seq<Command>, meta: nat, mb: MasterBlock)
    requires Refines(s, w, meta, mb) && IsTree(w.tree) && LegalRun(w, cs, mb, meta)
    ensures Refines(Run(s, cs).0, RunView(w, cs).0, meta, mb)
    ensures Run(s, cs).1 == RunView(w, cs).1
    decreases |cs|
  {
    if cs != [] {
      hide Step, StepView, Refines, IsTree, Legal;
      StepViewIsTree(w, cs[0]);
      StepRefines(s, w, cs[0], meta, mb);
      RunRefines(Step(s, cs[0]).0, StepView(w, cs[0]).0, cs[1..], meta, mb);
    }
  }

  const FRESH_VIEW: View := View(EMPTY_TREE, false)

  /** A run of commands on a device that newfs accepted, whatever the device
      held before, whose block map has room for its header and whose inode table
      ends with a block, and each command of which is legal where it is given. */
  ghost predicate LegalSession(disk: seq<Block>, bpb: nat, inodeCount: nat, cs: seq<Command>) {
    && IsDisk(disk, bpb) && bpb < 0x8000_0000 && |disk| < 0x8000_0000 && 1 < inodeCount < 0x8000_0000
    && NewFs(disk, bpb, inodeCount).Some? && BlockMapFits(|disk|, bpb) && TableFillsBlocks(inodeCount, bpb)
    && IsTree(FRESH_VIEW.tree)
    && LegalRun(FRESH_VIEW, cs, MasterFor(|disk|, bpb, inodeCount, 0), MetadataBlocks(|disk|, bpb, inodeCount))
  }

  /** Sessions refine the tree: format a device, then run any legal commands,
      with any number of unmounts and mounts among them. The shell never leaves
      defined behaviour and gives, command by command, the replies of the tree,
      which it still stands for at the end. */
  lemma SessionRefinement(disk: seq<Block>, bpb: nat, inodeCount: nat, cs: seq<Command>)
    requires LegalSession(disk, bpb, inodeCount, cs)
    ensures var (s, replies) := Run(Idle(NewFs(disk, bpb, inodeCount).value), cs);
            var (w, replies') := RunView(FRESH_VIEW, cs);
            && s != Undefined && replies == replies'
            && Refines(s, w, MetadataBlocks(|disk|, bpb, inodeCount), MasterFor(|disk|, bpb, inodeCount, 0))
  {
    var meta, mb := MetadataBlocks(|disk|, bpb, inodeCount), MasterFor(|disk|, bpb, inodeCount, 0);
    var formatted := NewFsOk(disk, bpb, inodeCount, meta);
    RunRefines(Idle(formatted), FRESH_VIEW, cs, meta, mb);
  }
}
