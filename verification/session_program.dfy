/** The program, run: format a device, then any legal commands. */
module SessionProgram {
  import opened BlockDevices
  import opened DirectoryText
  import opened NameTrees
  import opened Metadata
  import opened Shells
  import opened Sessions
  import opened SessionMounts
  import opened Refinement
  import opened DirectoryCache
  import opened ShellProgram
  import MetadataIO

  lemma MatchedIsNumbered(l: Live, t: Tree, meta: nat)
    requires LiveOk(l, t, meta)
    ensures Numbered(l.vol.inodes)
  {
  }

  /** A legal command is safe to give to a shell that stands for the tree. */
  lemma StepIsSafe(s: Shell, w: View, c: Command, meta: nat, mb: MasterBlock)
    requires Refines(s, w, meta, mb) && IsTree(w.tree) && Legal(w, c, mb, meta)
    ensures s != Undefined && Step(s, c).0 != Undefined
    ensures c.Mkdir? && s.Mounted? ==> NUL !in c.name
    ensures c.MountDevice? && s.Idle? ==> DoMount(s.disk).Mounted? && Numbered(DoMount(s.disk).live.vol.inodes)
  {
    StepRefines(s, w, c, meta, mb);
    if c.MountDevice? && s.Idle? {
      var l := MountOk(s.disk, w.tree, meta, mb);
      MatchedIsNumbered(l, w.tree.(cwd := 0), meta);
    }
  }

  /** A run unfolds command by command. */
  lemma SessionGoesOn(w: View, cs: seq<Command>, i: nat, mb: MasterBlock, meta: nat, replies: seq<Reply>)
    requires IsTree(w.tree) && i < |cs| && LegalRun(w, cs[i..], mb, meta)
    ensures w.tree.cwd < |w.tree.dirs| == |w.tree.par| && Legal(w, cs[i], mb, meta)
    ensures var (w1, reply) := StepView(w, cs[i]);
            && IsTree(w1.tree) && LegalRun(w1, cs[i + 1..], mb, meta)
            && RunView(w, cs[i..]).0 == RunView(w1, cs[i + 1..]).0
            && replies + RunView(w, cs[i..]).1 == replies + [reply] + RunView(w1, cs[i + 1..]).1
  {
    StepViewIsTree(w, cs[i]);
    assert cs[i..][0] == cs[i] && cs[i..][1..] == cs[i + 1..];
  }

  lemma NothingLeft(w: View)
    requires IsTree(w.tree)
    ensures RunView(w, []) == (w, [])
  {
  }

  /** A run under way: where it started, its commands, and its device. */
  datatype RunJob = RunJob(view: View, cs: seq<Command>, meta: nat, mb: MasterBlock)

  /** Before command i the shell stands for the tree w, and the replies so far are
      those of the tree. */
  ghost predicate Answering(job: RunJob, i: nat, s: Shell, w: View, replies: seq<Reply>) {
    var run := i <= |job.cs| && IsTree(job.view.tree) && IsTree(w.tree) && Refines(s, w, job.meta, job.mb)
      && LegalRun(w, job.cs[i..], job.mb, job.meta);
    var same := run && RunView(job.view, job.cs).0 == RunView(w, job.cs[i..]).0
      && RunView(job.view, job.cs).1 == replies + RunView(w, job.cs[i..]).1;
    var holds := run && same;
    holds
  }

  lemma AnsweringStarts(job: RunJob, s: Shell)
    requires IsTree(job.view.tree) && Refines(s, job.view, job.meta, job.mb)
    requires LegalRun(job.view, job.cs, job.mb, job.meta)
    ensures Answering(job, 0, s, job.view, [])
  {
    assert job.cs[0..] == job.cs && [] + RunView(job.view, job.cs).1 == RunView(job.view, job.cs).1;
    hide IsTree, Refines, LegalRun, RunView;
  }

  /** The next command is safe, and the run goes on behind it. */
  lemma AnsweringGoesOn(job: RunJob, i: nat, s: Shell, w: View, replies: seq<Reply>)
    returns (w': View)
    requires Answering(job, i, s, w, replies) && i < |job.cs|
    ensures s != Undefined && Step(s, job.cs[i]).0 != Undefined
    ensures job.cs[i].Mkdir? && s.Mounted? ==> NUL !in job.cs[i].name
    ensures job.cs[i].MountDevice? && s.Idle? ==> DoMount(s.disk).Mounted? && Numbered(DoMount(s.disk).live.vol.inodes)
    ensures Answering(job, i + 1, Step(s, job.cs[i]).0, w', replies + [Step(s, job.cs[i]).1])
  {
    hide Refines, LegalRun, RunView, Legal, Step, StepView, IsTree, DoMount, Numbered;
    SessionGoesOn(w, job.cs, i, job.mb, job.meta, replies);
    StepIsSafe(s, w, job.cs[i], job.meta, job.mb);
    StepRefines(s, w, job.cs[i], job.meta, job.mb);
    w' := StepView(w, job.cs[i]).0;
  }

  lemma AnsweringEnds(job: RunJob, s: Shell, w: View, replies: seq<Reply>)
    requires Answering(job, |job.cs|, s, w, replies)
    ensures IsTree(job.view.tree) && replies == RunView(job.view, job.cs).1
    ensures Refines(s, RunView(job.view, job.cs).0, job.meta, job.mb)
  {
    assert job.cs[|job.cs|..] == [] && replies + [] == replies;
    NothingLeft(w);
    hide Refines, LegalRun, RunView, IsTree;
  }

  /** The tree with the parent current; the root stays. */
  function GoneUp(w: View): View
    requires w.tree.cwd < |w.tree.par|
  {
    if w.tree.cwd == 0 then w else w.(tree := w.tree.(cwd := w.tree.par[w.tree.cwd]))
  }

  /** `cd ..`, given as its bytes, goes to the parent. */
  lemma DotDotGoesUp(w: View)
    requires IsTree(w.tree) && w.mounted
    ensures w.tree.cwd < |w.tree.par|
    ensures StepView(w, Cd([46, 46])) == (GoneUp(w), if w.tree.cwd == 0 then AlreadyInRoot else Silent)
  {
  }

  /** One legal command; `cd ..`, the two bytes 46, goes to the parent, and is
      refused in the root. */
  method RunCommand(shell: MainShell, c: Command, ghost view: View, ghost meta: nat, ghost mb: MasterBlock)
    returns (reply: Reply)
    requires shell.Valid() && IsTree(view.tree) && Refines(shell.View(), view, meta, mb)
    requires Legal(view, c, mb, meta)
    modifies shell, shell.device, shell.Parts()
    ensures fresh(shell.Parts() - old(shell.Parts()) - {shell.device})
    ensures shell.Valid() && Refines(shell.View(), StepView(view, c).0, meta, mb) && reply == StepView(view, c).1
    ensures view.mounted && c == Cd([46, 46]) ==>
      Refines(shell.View(), GoneUp(view), meta, mb) && reply == if view.tree.cwd == 0 then AlreadyInRoot else Silent
  {
    if view.mounted {
      DotDotGoesUp(view);
    }
    hide Refines, Legal, Step, StepView, Running, IsDisk, DoMount, Numbered, GoneUp;
    StepIsSafe(shell.View(), view, c, meta, mb);
    StepRefines(shell.View(), view, c, meta, mb);
    reply := shell.Execute(c);
  }

  /** A shell that stands for a tree answers a legal run as the tree does. */
  method RunCommands(shell: MainShell, cs: seq<Command>, ghost view: View, ghost meta: nat, ghost mb: MasterBlock)
    returns (replies: seq<Reply>)
    requires shell.Valid() && IsTree(view.tree) && Refines(shell.View(), view, meta, mb)
    requires LegalRun(view, cs, mb, meta)
    modifies shell, shell.device, shell.Parts()
    ensures replies == RunView(view, cs).1
    ensures shell.Valid() && Refines(shell.View(), RunView(view, cs).0, meta, mb)
  {
    hide Answering, Refines, LegalRun, RunView, Legal, Step, StepView, IsTree, Running, IsDisk, DoMount, Numbered;
    replies := [];
    ghost var job, w := RunJob(view, cs, meta, mb), view;
    AnsweringStarts(job, shell.View());
    for i := 0 to |cs|
      invariant shell.Valid() && fresh(shell.Parts() - old(shell.Parts()) - {shell.device})
      invariant Answering(job, i, shell.View(), w, replies)
    {
      w := AnsweringGoesOn(job, i, shell.View(), w, replies);
      var reply := shell.Execute(cs[i]);
      replies := replies + [reply];
    }
    AnsweringEnds(job, shell.View(), w, replies);
  }

  /** The program answers every legal session as the tree of names does. */
  method RunSession(device: BlockDevice, inodeCount: nat, cs: seq<Command>) returns (replies: seq<Reply>)
    requires device.Valid() && LegalSession(device.blocks, device.bytesPerBlock, inodeCount, cs)
    modifies device
    ensures replies == RunView(FRESH_VIEW, cs).1
  {
    ghost var meta := MetadataBlocks(|device.blocks|, device.bytesPerBlock, inodeCount);
    ghost var mb := MasterFor(|device.blocks|, device.bytesPerBlock, inodeCount, 0);
    ghost var formatted := NewFsOk(device.blocks, device.bytesPerBlock, inodeCount, meta);
    var ok := MetadataIO.NewFs(device, inodeCount);
    var shell := new MainShell(device);
    replies := RunCommands(shell, cs, FRESH_VIEW, meta, mb);
  }
}
