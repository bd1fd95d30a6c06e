/**
 * How far a recursive worker has come, read off its view: the image of a prefix of the walk, perhaps with a file in the
 * making, then with a suffix of its modes restored; and in the end a clone, or, after a failure, what a failing
 * ReflinkTree leaves. Each of the worker's calls, failing or not, keeps it so, whatever the rest of the file system
 * looks like.
 */
module TreeProgress {
  import opened Wrappers
  import opened Protocol
  import opened FileTree
  import opened WalkOrder
  import opened Kernels
  import opened Reflinks
  import opened TreeImages
  import opened TreeWalks
  import opened Workers
  import opened Views

  /**
   * A recursive request for a source that was there, to a name in a directory that was there, not inside the source.
   */
  ghost predicate TreeJob(n0: Tree, job: Job) {
    && job.recursive && job.Source() in n0 && !(job.Source() < job.Destination())
    && job.Destination() != [] && IsDirAt(n0, Parent(job.Destination()))
  }

  /** How the whole, the view, and the start are related: below the source there is nothing new. */
  ghost predicate Seen(n0: Tree, s: Tree, v: Tree, src: Path) {
    && (forall p {:trigger p in v} :: p in v ==> p in s && s[p] == v[p])
    && (forall p {:trigger p in n0} :: p in n0 ==> p in v && v[p] == n0[p])
    && (forall p {:trigger p in s} :: p in s && src <= p ==> p in n0)
  }

  /** Which of the worker's calls never fail for an unknown reason: restoring modes; closing and removing new files. */
  datatype Spared = Spared(modes: bool, files: bool)

  ghost predicate Spares(spared: Spared, w: Worker, choice: Choice) {
    && (spared.modes && w.pc.Restore? ==> choice.fault.None?)
    && (spared.files && w.pc.Copy? && (w.pc.at.Closing? || w.pc.at.Removing?) ==> choice.fault.None?)
  }

  // ---------------------------------------------------------------------------------------------
  // The states
  // ---------------------------------------------------------------------------------------------

  /** Between two turns, with these entries still to come. */
  ghost predicate Ready(n0: Tree, v: Tree, w: Worker, done: seq<Path>, stack: seq<Path>)
    requires w.job.Source() in n0
  {
    && FileTree.Valid(v) && w.job.Destination() !in n0 && Apart(w.job.Source(), w.job.Destination())
    && Walking(n0, v, w.job.Source(), w.job.Destination(), done, stack, w.directories)
  }

  /** The view is `base` with a file at `to`. */
  ghost predicate WithFile(v: Tree, base: Tree, to: Path) {
    to !in base && to in v && v == base[to := v[to]] && v[to].File? && v[to].nlink == 1
  }

  /** In the middle of copying a file; `base` is the view without the new file. */
  ghost predicate Filling(n0: Tree, v: Tree, w: Worker, done: seq<Path>, base: Tree, spared: Spared)
    requires w.job.Source() in n0 && w.pc.Copy?
  {
    var from, to, at := w.pc.from, w.pc.to, w.pc.at;
    && Ready(n0, base, w, done, [from] + w.stack)
    && w.job.Source() <= from && from in n0 && n0[from].File? && n0[from].nlink <= 1
    && to == Relocate(w.job.Source(), w.job.Destination(), from) && w.pc.mode == ModeOf(n0[from])
    && CleanupMatches(at)
    && (at.Opening? || at.Creating? ==> v == base)
    && (at.ClosingSource? && at.err.Some? ==> v == base || (WithFile(v, base, to) && !spared.files))
    && (!at.Opening? && !at.Creating? && !(at.ClosingSource? && at.err.Some?) ==> WithFile(v, base, to))
    && (at.Chmodding? ==> v[to].content == n0[from].content)
    && ((at.Closing? || at.ClosingSource?) && at.err.None? ==> v[to] == Finished(n0[from]))
  }

  /** The walk was stopped: `base` holds the copies of a prefix, and perhaps a leftover. */
  ghost predicate StoppedAt(n0: Tree, base: Tree, job: Job, dirs: seq<PendingMode>, done: seq<Path>, spared: Spared,
                            leftover: Option<Node>)
    requires FileTree.Valid(n0) && job.Source() in n0
  {
    && Prefix(n0, base, job.Source(), job.Destination(), done, dirs, leftover)
    && (spared.files ==> leftover.None?)
  }

  ghost predicate Stopped(n0: Tree, base: Tree, job: Job, dirs: seq<PendingMode>, done: seq<Path>, spared: Spared)
    requires FileTree.Valid(n0) && job.Source() in n0
  {
    exists leftover :: StoppedAt(n0, base, job, dirs, done, spared, leftover)
  }

  /** Modes are being restored, back to front; `base` is the view as the walk left it. */
  ghost predicate Restoring(n0: Tree, v: Tree, w: Worker, done: seq<Path>, base: Tree, spared: Spared)
    requires FileTree.Valid(n0) && w.job.Source() in n0 && w.pc.Restore?
  {
    && w.job.Destination() !in n0 && FileTree.Valid(v)
    && w.pc.left <= |w.directories| && ModesSet(base, v, w.directories, w.pc.left)
    && Stopped(n0, base, w.job, w.directories, done, spared)
    && (w.pc.walkErr.None? ==>
          StoppedAt(n0, base, w.job, w.directories, done, spared, None) && done == Preorder(n0, w.job.Source()))
  }

  /** What a run that was started leaves. */
  ghost predicate LeftBy(n0: Tree, v: Tree, src: Path, dst: Path, run: TreeRun, spared: Spared)
    requires FileTree.Valid(n0) && src in n0
  {
    && dst !in n0 && Leaves(n0, v, src, dst, run)
    && (spared.modes ==> run.restoredFrom == 0) && (spared.files ==> run.left.None?)
  }

  ghost predicate Progress(n0: Tree, v: Tree, w: Worker, done: seq<Path>, base: Tree, spared: Spared)
    requires FileTree.Valid(n0) && TreeJob(n0, w.job)
  {
    var src, dst := w.job.Source(), w.job.Destination();
    match w.pc
    case MakeRoot(mode) => v == n0 && w.stack == [] && IsDirAt(n0, src) && mode == Info(n0[src]).mode
    case StatWalk => w.stack == [] && IsDirAt(n0, src) && Ready(n0, v, w, done, ChildPaths(n0, src))
    case Read(dir) => src <= dir && IsDirAt(n0, dir) && Ready(n0, v, w, done, ChildPaths(n0, dir) + w.stack)
    case Visit(p) => Ready(n0, v, w, done, [p] + w.stack)
    case MakeDir(p, mode) => p in n0 && n0[p].Dir? && mode == Info(n0[p]).mode && Ready(n0, v, w, done, [p] + w.stack)
    case Copy(_, _, _, _) => Filling(n0, v, w, done, base, spared)
    case Restore(_, _) => Restoring(n0, v, w, done, base, spared)
    case Done(result) =>
      if result.None? then dst !in n0 && IsTreeClone(n0, v, src, dst) && AllClonable(n0, src)
      else v == n0 || exists run :: LeftBy(n0, v, src, dst, run, spared)
    case _ => v == n0 && w.stack == [] && w.directories == []
  }

  // ---------------------------------------------------------------------------------------------
  // From one to the next
  // ---------------------------------------------------------------------------------------------

  lemma SourceContents(n0: Tree, s: Tree, v: Tree, src: Path, dir: Path)
    requires Seen(n0, s, v, src) && src <= dir && IsDirAt(n0, dir)
    ensures IsDirAt(s, dir) && ChildPaths(s, dir) == ChildPaths(n0, dir)
  {
    ContentsUnique(s, dir, ChildPaths(s, dir), ChildPaths(n0, dir));
  }

  /** A walk stopped between two turns; and one with no turn left. */
  lemma Stops(n0: Tree, v: Tree, w: Worker, stack: seq<Path>, done: seq<Path>, walkErr: Option<Error>, spared: Spared)
    requires FileTree.Valid(n0) && TreeJob(n0, w.job) && Ready(n0, v, w, done, stack)
    requires walkErr.None? ==> stack == []
    ensures Progress(n0, v, w.(pc := Restore(|w.directories|, walkErr)), done, v, spared)
  {
    var w' := w.(pc := Restore(|w.directories|, walkErr));
    if stack == [] {
      assert done + Pending(n0, []) == done;
    }
    assert StoppedAt(n0, v, w.job, w.directories, done, spared, None);
    assert Restored(w.directories, |w.directories|) == {};
  }

  /** With the next entry on the stack it is visited; with none left the modes are restored. */
  lemma Advances(n0: Tree, v: Tree, w: Worker, stack: seq<Path>, done: seq<Path>, spared: Spared)
    requires FileTree.Valid(n0) && TreeJob(n0, w.job) && Ready(n0, v, w, done, stack)
    ensures Progress(n0, v, AdvanceTo(w, stack), done, v, spared)
  {
    if stack == [] {
      Stops(n0, v, w.(stack := []), stack, done, None, spared);
    } else {
      assert [stack[0]] + stack[1..] == stack;
    }
  }

  /** The destination's root is made. */
  lemma RootIsMade(n0: Tree, s: Tree, w: Worker, umask: bv9, fault: Option<Errno>, spared: Spared)
    requires FileTree.Valid(n0) && TreeJob(n0, w.job) && umask & OWNER_RWX == 0
    requires w.pc.MakeRoot? && Progress(n0, n0, w, [], n0, spared) && Seen(n0, s, n0, w.job.Source())
    ensures var (e, w') := TreeStep(s, w, umask, fault); Progress(n0, Apply(n0, e), w', [w.job.Source()], n0, spared)
  {
    var src, dst := w.job.Source(), w.job.Destination();
    var (e, w') := TreeStep(s, w, umask, fault);
    if e.Create? {
      TemporaryModeSurvivesUmask(umask);
      StartsApart(n0, w.job);
      AddKeepsValid(n0, dst, TEMPORARY);
      StartOfWalk(n0, n0[dst := TEMPORARY], src, dst, w'.directories);
    }
  }

  lemma StartsApart(n0: Tree, job: Job)
    requires FileTree.Valid(n0) && TreeJob(n0, job) && job.Destination() !in n0
    ensures Apart(job.Source(), job.Destination())
  {
    assert job.Source() <= job.Destination() && job.Source() != job.Destination() ==> job.Source() < job.Destination();
    DestinationIsApart(n0, job.Source(), job.Destination());
  }

  lemma RootIsSeen(n0: Tree, s: Tree, v: Tree, w: Worker, umask: bv9, fault: Option<Errno>, done: seq<Path>, base: Tree,
                   spared: Spared)
    requires FileTree.Valid(n0) && TreeJob(n0, w.job)
    requires w.pc.StatRoot? && Progress(n0, v, w, done, base, spared) && Seen(n0, s, v, w.job.Source())
    ensures var (e, w') := TreeStep(s, w, umask, fault); e.Nothing? && Progress(n0, v, w', done, base, spared)
  {
  }

  lemma RootIsSeenAgain(n0: Tree, s: Tree, v: Tree, w: Worker, umask: bv9, fault: Option<Errno>, done: seq<Path>,
                        base: Tree, spared: Spared)
    requires FileTree.Valid(n0) && TreeJob(n0, w.job)
    requires w.pc.StatWalk? && Progress(n0, v, w, done, base, spared) && Seen(n0, s, v, w.job.Source())
    ensures var (e, w') := TreeStep(s, w, umask, fault); e.Nothing? && Progress(n0, v, w', done, v, spared)
  {
    assert ChildPaths(n0, w.job.Source()) + [] == ChildPaths(n0, w.job.Source());
    var (e, w') := TreeStep(s, w, umask, fault);
    if w'.pc.Restore? {
      Stops(n0, v, w, ChildPaths(n0, w.job.Source()), done, w'.pc.walkErr, spared);
    }
  }

  lemma DirectoryIsRead(n0: Tree, s: Tree, v: Tree, w: Worker, umask: bv9, fault: Option<Errno>, done: seq<Path>,
                        base: Tree, spared: Spared)
    requires FileTree.Valid(n0) && TreeJob(n0, w.job)
    requires w.pc.Read? && Progress(n0, v, w, done, base, spared) && Seen(n0, s, v, w.job.Source())
    ensures var (e, w') := TreeStep(s, w, umask, fault); e.Nothing? && Progress(n0, v, w', done, v, spared)
  {
    SourceContents(n0, s, v, w.job.Source(), w.pc.dir);
    var (e, w') := TreeStep(s, w, umask, fault);
    var contents := ChildPaths(n0, w.pc.dir) + w.stack;
    if w'.pc.Restore? && w'.pc.walkErr.Some? {
      Stops(n0, v, w, contents, done, w'.pc.walkErr, spared);
    } else {
      Advances(n0, v, w, contents, done, spared);
    }
  }

  /** What looking at an entry leads to. */
  lemma VisitLeads(s: Tree, w: Worker, umask: bv9, fault: Option<Errno>)
    requires w.pc.Visit? && w.pc.path in s
    ensures var (e, w') := TreeStep(s, w, umask, fault);
            var n := s[w.pc.path];
            && e.Nothing? && w' == w.(pc := w'.pc)
            && ((w'.pc.Restore? && w'.pc.left == |w.directories| && w'.pc.walkErr.Some?)
                || (n.Dir? && w'.pc == MakeDir(w.pc.path, Info(n).mode))
                || (n.File? && n.nlink <= 1 && w'.pc == Copy(w.pc.path, w.job.Target(w.pc.path), ModeOf(n), Opening)))
  {
  }

  lemma EntryIsVisited(n0: Tree, s: Tree, v: Tree, w: Worker, umask: bv9, fault: Option<Errno>, done: seq<Path>,
                       base: Tree, spared: Spared)
    requires FileTree.Valid(n0) && TreeJob(n0, w.job)
    requires w.pc.Visit? && Progress(n0, v, w, done, base, spared) && Seen(n0, s, v, w.job.Source())
    ensures var (e, w') := TreeStep(s, w, umask, fault); e.Nothing? && Progress(n0, v, w', done, v, spared)
  {
    TurnIsReady(n0, v, w.job.Source(), w.job.Destination(), done, w.pc.path, w.stack, w.directories);
    assert w.pc.path in s && s[w.pc.path] == n0[w.pc.path];
    VisitLeads(s, w, umask, fault);
    var (e, w') := TreeStep(s, w, umask, fault);
    if w'.pc.Restore? {
      Stops(n0, v, w, [w.pc.path] + w.stack, done, w'.pc.walkErr, spared);
    } else {
      VisitedIsProgress(n0, v, w, w'.pc, done, spared);
    }
  }

  lemma VisitedIsProgress(n0: Tree, v: Tree, w: Worker, pc: Pc, done: seq<Path>, spared: Spared)
    requires FileTree.Valid(n0) && TreeJob(n0, w.job)
    requires w.pc.Visit? && Ready(n0, v, w, done, [w.pc.path] + w.stack) && w.job.Source() <= w.pc.path
    requires w.pc.path in n0
    requires || (n0[w.pc.path].Dir? && pc == MakeDir(w.pc.path, Info(n0[w.pc.path]).mode))
             || (n0[w.pc.path].File? && n0[w.pc.path].nlink <= 1
                 && pc == Copy(w.pc.path, w.job.Target(w.pc.path), ModeOf(n0[w.pc.path]), Opening))
    ensures Progress(n0, v, w.(pc := pc), done, v, spared)
  {
  }

  /** What making a directory leads to. */
  lemma MakeLeads(s: Tree, w: Worker, umask: bv9, fault: Option<Errno>)
    requires w.pc.MakeDir? && umask & OWNER_RWX == 0
    ensures var (e, w') := TreeStep(s, w, umask, fault);
            var target := w.job.Target(w.pc.path);
            || (e.Nothing? && w'.pc.Restore? && w'.pc.walkErr.Some?
                && w' == w.(pc := Restore(|w.directories|, w'.pc.walkErr)))
            || (e == Create(target, TEMPORARY)
                && w' == w.(pc := Read(w.pc.path),
                            directories := w.directories + [PendingMode(target, ExactDirectoryMode(w.pc.mode))]))
  {
    TemporaryModeSurvivesUmask(umask);
  }

  /** A directory's copy is made. */
  lemma DirectoryIsMade(n0: Tree, s: Tree, v: Tree, w: Worker, umask: bv9, fault: Option<Errno>, done: seq<Path>,
                        base: Tree, spared: Spared)
      returns (done': seq<Path>)
    requires FileTree.Valid(n0) && TreeJob(n0, w.job) && umask & OWNER_RWX == 0
    requires w.pc.MakeDir? && Progress(n0, v, w, done, base, spared) && Seen(n0, s, v, w.job.Source())
    ensures var (e, w') := TreeStep(s, w, umask, fault); Progress(n0, Apply(v, e), w', done', v, spared)
  {
    var src, dst, p := w.job.Source(), w.job.Destination(), w.pc.path;
    TurnIsReady(n0, v, src, dst, done, p, w.stack, w.directories);
    MakeLeads(s, w, umask, fault);
    var (e, w') := TreeStep(s, w, umask, fault);
    if e.Create? {
      TurnGrows(n0, v, src, dst, done, p, w.stack, w.directories,
                [PendingMode(Relocate(src, dst, p), ExactDirectoryMode(Info(n0[p]).mode))]);
      AddKeepsValid(v, Relocate(src, dst, p), Fresh(n0[p]));
      done' := done + [p];
    } else {
      Stops(n0, v, w, [p] + w.stack, done, w'.pc.walkErr, spared);
      done' := done;
    }
  }

  // ---------------------------------------------------------------------------------------------
  // Files
  // ---------------------------------------------------------------------------------------------

  /** A file's copy is finished; on to what is left. */
  lemma FileIsDone(n0: Tree, base: Tree, w: Worker, done: seq<Path>, from: Path, spared: Spared)
    requires FileTree.Valid(n0) && TreeJob(n0, w.job) && Ready(n0, base, w, done, [from] + w.stack)
    requires w.job.Source() <= from && from in n0 && n0[from].File? && n0[from].nlink <= 1
    requires Relocate(w.job.Source(), w.job.Destination(), from) !in base
    ensures var v := base[Relocate(w.job.Source(), w.job.Destination(), from) := Finished(n0[from])];
            Progress(n0, v, AdvanceTo(w, w.stack), done + [from], v, spared)
  {
    var src, dst := w.job.Source(), w.job.Destination();
    TurnIsReady(n0, base, src, dst, done, from, w.stack, w.directories);
    TurnGrows(n0, base, src, dst, done, from, w.stack, w.directories, []);
    AddKeepsValid(base, Relocate(src, dst, from), Finished(n0[from]));
    assert w.directories + [] == w.directories;
    Advances(n0, base[Relocate(src, dst, from) := Finished(n0[from])], w, w.stack, done + [from], spared);
  }

  /** A file's copying failed, and the walk is stopped, with or without something left behind. */
  lemma FileIsLeft(n0: Tree, v: Tree, w: Worker, done: seq<Path>, base: Tree, spared: Spared, err: Option<Error>)
    requires FileTree.Valid(n0) && TreeJob(n0, w.job) && w.pc.Copy? && err.Some?
    requires Ready(n0, base, w, done, [w.pc.from] + w.stack)
    requires w.job.Source() <= w.pc.from && w.pc.to == Relocate(w.job.Source(), w.job.Destination(), w.pc.from)
    requires v == base || (WithFile(v, base, w.pc.to) && !spared.files)
    ensures Progress(n0, v, w.(pc := Restore(|w.directories|, err)), done, v, spared)
  {
    if v == base {
      Stops(n0, base, w, [w.pc.from] + w.stack, done, err, spared);
    } else {
      var src, dst := w.job.Source(), w.job.Destination();
      var w' := w.(pc := Restore(|w.directories|, err));
      TurnIsReady(n0, base, src, dst, done, w.pc.from, w.stack, w.directories);
      TurnLeaves(n0, base, src, dst, done, w.pc.from, w.directories, v[w.pc.to]);
      AddKeepsValid(base, w.pc.to, v[w.pc.to]);
      assert StoppedAt(n0, v, w.job, w.directories, done, spared, Some(v[w.pc.to]));
      assert Restored(w.directories, |w.directories|) == {};
    }
  }

  /** The same worker, its copying one call further. */
  predicate CopyMoved(w: Worker, w': Worker) {
    w' == w.(pc := w'.pc) && w.pc.Copy? && w'.pc.Copy?
    && w'.pc.from == w.pc.from && w'.pc.to == w.pc.to && w'.pc.mode == w.pc.mode
  }

  lemma OpenLeads(s: Tree, w: Worker, umask: bv9, choice: Choice)
    requires w.pc.Copy? && w.pc.at.Opening? && w.job.recursive
    ensures var (e, w') := CopyStep(s, w, umask, choice);
            && e.Nothing? && w' == w.(pc := w'.pc)
            && ((CopyMoved(w, w') && w'.pc.at == Creating)
                || (w'.pc.Restore? && w'.pc.left == |w.directories| && w'.pc.walkErr.Some?))
  {
  }

  lemma CreateLeads(s: Tree, w: Worker, umask: bv9, choice: Choice)
    requires w.pc.Copy? && w.pc.at.Creating?
    ensures var (e, w') := CopyStep(s, w, umask, choice);
            && CopyMoved(w, w')
            && ((e.Nothing? && w'.pc.at.ClosingSource? && w'.pc.at.err.Some?)
                || (e == Create(w.pc.to, File([], PlainAttr(w.pc.mode.attr.perm & !umask), 1)) && w.pc.to !in s
                    && w'.pc.at == Cloning))
  {
  }

  /** What the clone itself leads to. */
  lemma CloneLeads(s: Tree, w: Worker, umask: bv9, choice: Choice)
    requires w.pc.Copy? && w.pc.at.Cloning? && w.pc.to in s && s[w.pc.to].File? && w.pc.from in s && s[w.pc.from].File?
    requires choice.bytes.None?
    ensures var (e, w') := CopyStep(s, w, umask, choice);
            && CopyMoved(w, w')
            && ((e.Nothing? && w'.pc.at.Closing? && w'.pc.at.err.Some? && w'.pc.at.cleanup)
                || (e == Change(w.pc.to, s[w.pc.to].(content := s[w.pc.from].content)) && w'.pc.at == Chmodding))
  {
  }

  /** What setting the mode of a new file leads to. */
  lemma ChmodLeads(s: Tree, w: Worker, umask: bv9, choice: Choice)
    requires w.pc.Copy? && w.pc.at.Chmodding? && w.pc.to in s && s[w.pc.to].File?
    ensures var (e, w') := CopyStep(s, w, umask, choice);
            && CopyMoved(w, w')
            && ((e.Nothing? && w'.pc.at.Closing? && w'.pc.at.err.Some? && w'.pc.at.cleanup)
                || (e == Change(w.pc.to, s[w.pc.to].(attr := PlainAttr(w.pc.mode.attr.perm)))
                    && w'.pc.at == Closing(None, false)))
  {
  }

  lemma CloseLeads(s: Tree, w: Worker, umask: bv9, choice: Choice)
    requires w.pc.Copy? && w.pc.at.Closing? && CleanupMatches(w.pc.at)
    ensures var (e, w') := CopyStep(s, w, umask, choice);
            && CopyMoved(w, w') && e.Nothing?
            && (w.pc.at.err.Some? ==> w'.pc.at == Removing(w.pc.at.err))
            && (w.pc.at.err.None? ==> w'.pc.at.ClosingSource? && (w'.pc.at.err.Some? ==> choice.fault.Some?))
  {
  }

  lemma RemoveLeads(s: Tree, w: Worker, umask: bv9, choice: Choice)
    requires w.pc.Copy? && w.pc.at.Removing? && w.pc.to in s && s[w.pc.to].File?
    ensures var (e, w') := CopyStep(s, w, umask, choice);
            && CopyMoved(w, w') && w'.pc.at == ClosingSource(w.pc.at.err)
            && (e == Delete(w.pc.to) || (e.Nothing? && choice.fault.Some?))
  {
  }

  lemma CreatingGoesOn(n0: Tree, s: Tree, v: Tree, w: Worker, umask: bv9, choice: Choice, done: seq<Path>, base: Tree,
                       spared: Spared)
    requires FileTree.Valid(n0) && TreeJob(n0, w.job) && w.pc.Copy? && w.pc.at.Creating?
    requires Filling(n0, v, w, done, base, spared) && Seen(n0, s, v, w.job.Source())
    ensures var (e, w') := CopyStep(s, w, umask, choice);
            w'.pc.Copy? && Filling(n0, Apply(v, e), w', done, base, spared)
  {
    CreateLeads(s, w, umask, choice);
  }

  lemma CloningGoesOn(n0: Tree, s: Tree, v: Tree, w: Worker, umask: bv9, choice: Choice, done: seq<Path>, base: Tree,
                      spared: Spared)
    requires FileTree.Valid(n0) && TreeJob(n0, w.job) && w.pc.Copy? && w.pc.at.Cloning? && choice.bytes.None?
    requires Filling(n0, v, w, done, base, spared) && Seen(n0, s, v, w.job.Source())
    ensures var (e, w') := CopyStep(s, w, umask, choice);
            w'.pc.Copy? && Filling(n0, Apply(v, e), w', done, base, spared)
  {
    assert s[w.pc.from] == n0[w.pc.from] && s[w.pc.to] == v[w.pc.to];
    CloneLeads(s, w, umask, choice);
  }

  lemma ChmoddingGoesOn(n0: Tree, s: Tree, v: Tree, w: Worker, umask: bv9, choice: Choice, done: seq<Path>, base: Tree,
                        spared: Spared)
    requires FileTree.Valid(n0) && TreeJob(n0, w.job) && w.pc.Copy? && w.pc.at.Chmodding?
    requires Filling(n0, v, w, done, base, spared) && Seen(n0, s, v, w.job.Source())
    ensures var (e, w') := CopyStep(s, w, umask, choice);
            w'.pc.Copy? && Filling(n0, Apply(v, e), w', done, base, spared)
  {
    assert s[w.pc.to] == v[w.pc.to];
    ChmodLeads(s, w, umask, choice);
  }

  lemma ClosingGoesOn(n0: Tree, s: Tree, v: Tree, w: Worker, umask: bv9, choice: Choice, done: seq<Path>, base: Tree,
                      spared: Spared)
    requires FileTree.Valid(n0) && TreeJob(n0, w.job) && w.pc.Copy? && w.pc.at.Closing? && Spares(spared, w, choice)
    requires Filling(n0, v, w, done, base, spared)
    ensures var (e, w') := CopyStep(s, w, umask, choice);
            w'.pc.Copy? && Filling(n0, Apply(v, e), w', done, base, spared)
  {
    CloseLeads(s, w, umask, choice);
  }

  lemma RemovingGoesOn(n0: Tree, s: Tree, v: Tree, w: Worker, umask: bv9, choice: Choice, done: seq<Path>, base: Tree,
                       spared: Spared)
    requires FileTree.Valid(n0) && TreeJob(n0, w.job) && w.pc.Copy? && w.pc.at.Removing? && Spares(spared, w, choice)
    requires Filling(n0, v, w, done, base, spared) && Seen(n0, s, v, w.job.Source())
    ensures var (e, w') := CopyStep(s, w, umask, choice);
            w'.pc.Copy? && Filling(n0, Apply(v, e), w', done, base, spared)
  {
    assert s[w.pc.to] == v[w.pc.to];
    RemoveLeads(s, w, umask, choice);
    assert v - {w.pc.to} == base;
  }

  /** A call in the middle of copying a file. */
  lemma FillingGoesOn(n0: Tree, s: Tree, v: Tree, w: Worker, umask: bv9, choice: Choice, done: seq<Path>, base: Tree,
                      spared: Spared)
    requires FileTree.Valid(n0) && TreeJob(n0, w.job) && w.pc.Copy? && !w.pc.at.Opening? && !w.pc.at.ClosingSource?
    requires choice.bytes.None? && Spares(spared, w, choice)
    requires Filling(n0, v, w, done, base, spared) && Seen(n0, s, v, w.job.Source())
    ensures var (e, w') := CopyStep(s, w, umask, choice);
            w'.pc.Copy? && Filling(n0, Apply(v, e), w', done, base, spared)
  {
    match w.pc.at
    case Creating => CreatingGoesOn(n0, s, v, w, umask, choice, done, base, spared);
    case Cloning => CloningGoesOn(n0, s, v, w, umask, choice, done, base, spared);
    case Chmodding => ChmoddingGoesOn(n0, s, v, w, umask, choice, done, base, spared);
    case Closing(_, _) => ClosingGoesOn(n0, s, v, w, umask, choice, done, base, spared);
    case Removing(_) => RemovingGoesOn(n0, s, v, w, umask, choice, done, base, spared);
  }

  lemma FileIsOpened(n0: Tree, s: Tree, v: Tree, w: Worker, umask: bv9, choice: Choice, done: seq<Path>, base: Tree,
                     spared: Spared)
      returns (base': Tree)
    requires FileTree.Valid(n0) && TreeJob(n0, w.job) && w.pc.Copy? && w.pc.at.Opening?
    requires Filling(n0, v, w, done, base, spared)
    ensures var (e, w') := CopyStep(s, w, umask, choice);
            w'.job == w.job && Progress(n0, Apply(v, e), w', done, base', spared)
  {
    base' := base;
    OpenLeads(s, w, umask, choice);
    var (e, w') := CopyStep(s, w, umask, choice);
    if w'.pc.Restore? {
      FileIsLeft(n0, v, w, done, base, spared, w'.pc.walkErr);
      base' := v;
    }
  }

  lemma SourceIsClosed(n0: Tree, s: Tree, v: Tree, w: Worker, umask: bv9, choice: Choice, done: seq<Path>, base: Tree,
                       spared: Spared)
      returns (done': seq<Path>)
    requires FileTree.Valid(n0) && TreeJob(n0, w.job) && w.pc.Copy? && w.pc.at.ClosingSource?
    requires Filling(n0, v, w, done, base, spared)
    ensures var (e, w') := CopyStep(s, w, umask, choice);
            w'.job == w.job && Progress(n0, Apply(v, e), w', done', v, spared)
  {
    done' := done;
    if w.pc.at.err.Some? {
      FileIsLeft(n0, v, w, done, base, spared, w.pc.at.err);
    } else {
      FileIsDone(n0, base, w, done, w.pc.from, spared);
      done' := done + [w.pc.from];
    }
  }

  lemma FileIsCopied(n0: Tree, s: Tree, v: Tree, w: Worker, umask: bv9, choice: Choice, done: seq<Path>, base: Tree,
                     spared: Spared)
      returns (done': seq<Path>, base': Tree)
    requires FileTree.Valid(n0) && TreeJob(n0, w.job) && choice.bytes.None? && Spares(spared, w, choice)
    requires w.pc.Copy? && Progress(n0, v, w, done, base, spared) && Seen(n0, s, v, w.job.Source())
    ensures var (e, w') := CopyStep(s, w, umask, choice);
            w'.job == w.job && Progress(n0, Apply(v, e), w', done', base', spared)
  {
    done', base' := done, base;
    if w.pc.at.Opening? {
      base' := FileIsOpened(n0, s, v, w, umask, choice, done, base, spared);
    } else if w.pc.at.ClosingSource? {
      done' := SourceIsClosed(n0, s, v, w, umask, choice, done, base, spared);
      base' := v;
    } else {
      JobOfCopy(s, w, umask, choice);
      FillingGoesOn(n0, s, v, w, umask, choice, done, base, spared);
    }
  }

  lemma JobOfCopy(s: Tree, w: Worker, umask: bv9, choice: Choice)
    requires w.pc.Copy?
    ensures CopyStep(s, w, umask, choice).1.job == w.job
  {
    JobStays(s, w, umask, choice);
  }

  // ---------------------------------------------------------------------------------------------
  // Modes
  // ---------------------------------------------------------------------------------------------

  lemma LeavesAtEnd(n0: Tree, v: Tree, w: Worker, done: seq<Path>, base: Tree, spared: Spared, leftover: Option<Node>,
                    run: TreeRun)
    requires FileTree.Valid(n0) && TreeJob(n0, w.job) && w.pc.Restore? && Restoring(n0, v, w, done, base, spared)
    requires StoppedAt(n0, base, w.job, w.directories, done, spared, leftover)
    requires run.done == done && run.left == leftover && run.restoredFrom == w.pc.left && run.walkErr == w.pc.walkErr
    requires leftover.Some? ==> run.walkErr.Some?
    ensures Leaves(n0, v, w.job.Source(), w.job.Destination(), run)
  {
    PrefixThenModes(n0, base, v, w.job.Source(), w.job.Destination(), run);
  }

  lemma AllIsRestored(n0: Tree, v: Tree, w: Worker, done: seq<Path>, base: Tree, spared: Spared)
    requires FileTree.Valid(n0) && TreeJob(n0, w.job)
    requires w.pc.Restore? && w.pc.left == 0 && Restoring(n0, v, w, done, base, spared)
    ensures Progress(n0, v, w.(pc := Done(w.pc.walkErr)), done, base, spared)
  {
    var src, dst := w.job.Source(), w.job.Destination();
    if w.pc.walkErr.None? {
      var run := TreeRun(true, done, None, 0, None, None);
      LeavesAtEnd(n0, v, w, done, base, spared, None, run);
      CompletesIsClone(n0, v, src, dst, run);
    } else {
      var leftover :| StoppedAt(n0, base, w.job, w.directories, done, spared, leftover);
      var run := TreeRun(true, done, leftover, 0, w.pc.walkErr, None);
      LeavesAtEnd(n0, v, w, done, base, spared, leftover, run);
      assert LeftBy(n0, v, src, dst, run, spared);
    }
  }

  /** A chmod failed: the modes before it stay temporary. */
  lemma NotAllIsRestored(n0: Tree, v: Tree, w: Worker, done: seq<Path>, base: Tree, spared: Spared,
                         result: Option<Error>)
    requires FileTree.Valid(n0) && TreeJob(n0, w.job) && !spared.modes && result.Some?
    requires w.pc.Restore? && Restoring(n0, v, w, done, base, spared)
    ensures Progress(n0, v, w.(pc := Done(result)), done, base, spared)
  {
    var src, dst := w.job.Source(), w.job.Destination();
    var leftover: Option<Node> := None;
    if w.pc.walkErr.Some? {
      leftover :| StoppedAt(n0, base, w.job, w.directories, done, spared, leftover);
    }
    var run := TreeRun(true, done, leftover, w.pc.left, w.pc.walkErr, result);
    LeavesAtEnd(n0, v, w, done, base, spared, leftover, run);
    assert LeftBy(n0, v, src, dst, run, spared);
  }

  lemma OneIsRestored(n0: Tree, v: Tree, w: Worker, done: seq<Path>, base: Tree, spared: Spared)
    requires FileTree.Valid(n0) && TreeJob(n0, w.job)
    requires w.pc.Restore? && w.pc.left > 0 && Restoring(n0, v, w, done, base, spared)
    ensures IsDirAt(v, w.directories[w.pc.left - 1].path)
    ensures var d := w.directories[w.pc.left - 1];
            Progress(n0, v[d.path := SetAttr(v[d.path], d.mode.attr)], w.(pc := Restore(w.pc.left - 1, w.pc.walkErr)),
                done, base, spared)
  {
    var dirs, left := w.directories, w.pc.left;
    DirsOfStopped(n0, base, w.job, dirs, done, spared);
    assert dirs[left - 1] in dirs;
    RestoringKeepsDirs(base, v, dirs, left);
    SetOneMore(base, v, dirs, left);
    UpdateKeepsValid(v, dirs[left - 1].path, SetAttr(v[dirs[left - 1].path], dirs[left - 1].mode.attr));
  }

  lemma DirsOfStopped(n0: Tree, base: Tree, job: Job, dirs: seq<PendingMode>, done: seq<Path>, spared: Spared)
    requires FileTree.Valid(n0) && job.Source() in n0 && job.Destination() !in n0
    requires Stopped(n0, base, job, dirs, done, spared)
    ensures StrictlySorted(PathsIn(dirs))
    ensures forall d :: d in dirs ==> IsDirAt(base, d.path)
    ensures LetsIn(base, OwnDirs(n0, base))
  {
    var leftover :| StoppedAt(n0, base, job, dirs, done, spared, leftover);
    ReadyToRestore(n0, base, job.Source(), job.Destination(), done, dirs, leftover);
    PrefixLetsIn(n0, base, job.Source(), job.Destination(), done, dirs, leftover);
  }

  /** What restoring one mode leads to. */
  lemma RestoreLeads(s: Tree, w: Worker, umask: bv9, fault: Option<Errno>)
    requires w.pc.Restore? && w.pc.left <= |w.directories|
    ensures var (e, w') := TreeStep(s, w, umask, fault);
            && w' == w.(pc := w'.pc)
            && (w.pc.left == 0 ==> w'.pc == Done(w.pc.walkErr) && e.Nothing?)
            && (w.pc.left > 0 && fault.Some? ==> w'.pc.Done? && w'.pc.result.Some? && e.Nothing?)
            && (w.pc.left > 0 && fault.None? && IsDirAt(s, w.directories[w.pc.left - 1].path) ==>
                  var d := w.directories[w.pc.left - 1];
                  w'.pc == Restore(w.pc.left - 1, w.pc.walkErr) && e == Change(d.path, SetAttr(s[d.path], d.mode.attr)))
  {
  }

  lemma ModeIsRestored(n0: Tree, s: Tree, v: Tree, w: Worker, umask: bv9, fault: Option<Errno>, done: seq<Path>,
                       base: Tree, spared: Spared)
    requires FileTree.Valid(n0) && TreeJob(n0, w.job) && (spared.modes ==> fault.None?)
    requires w.pc.Restore? && Progress(n0, v, w, done, base, spared) && Seen(n0, s, v, w.job.Source())
    ensures var (e, w') := TreeStep(s, w, umask, fault); Progress(n0, Apply(v, e), w', done, base, spared)
  {
    RestoreLeads(s, w, umask, fault);
    var (e, w') := TreeStep(s, w, umask, fault);
    if w.pc.left == 0 {
      AllIsRestored(n0, v, w, done, base, spared);
    } else if fault.Some? {
      NotAllIsRestored(n0, v, w, done, base, spared, w'.pc.result);
    } else {
      OneIsRestored(n0, v, w, done, base, spared);
      var d := w.directories[w.pc.left - 1];
      assert s[d.path] == v[d.path];
    }
  }

  // ---------------------------------------------------------------------------------------------
  // Every step
  // ---------------------------------------------------------------------------------------------

  lemma ChecksAreHarmless(n0: Tree, s: Tree, w: Worker, umask: bv9, choice: Choice, done: seq<Path>, base: Tree,
                          spared: Spared)
    requires FileTree.Valid(n0) && TreeJob(n0, w.job)
    requires !w.pc.Copy? && !InTree(w.pc) && !w.pc.Done? && Progress(n0, n0, w, done, base, spared)
    ensures var (e, w') := WorkerStep(s, w, umask, choice); e.Nothing? && Progress(n0, n0, w', done, base, spared)
  {
    if w.pc.JoinSrc? || w.pc.WalkSrc? || w.pc.StatSrc? {
      SourceOnlyLooks(s, w, choice.fault);
    } else {
      DestinationOnlyLooks(s, w, choice.fault);
    }
  }

  lemma JobOfTree(s: Tree, w: Worker, umask: bv9, fault: Option<Errno>)
    requires InTree(w.pc)
    ensures TreeStep(s, w, umask, fault).1.job == w.job
  {
  }

  lemma OwnTreeStep(n0: Tree, s: Tree, v: Tree, w: Worker, umask: bv9, fault: Option<Errno>, done: seq<Path>,
                    base: Tree, spared: Spared)
      returns (done': seq<Path>, base': Tree)
    requires FileTree.Valid(n0) && TreeJob(n0, w.job) && umask & OWNER_RWX == 0
    requires spared.modes && w.pc.Restore? ==> fault.None?
    requires InTree(w.pc) && Progress(n0, v, w, done, base, spared) && Seen(n0, s, v, w.job.Source())
    ensures var (e, w') := TreeStep(s, w, umask, fault);
            w'.job == w.job && Progress(n0, Apply(v, e), w', done', base', spared)
  {
    done', base' := done, v;
    JobOfTree(s, w, umask, fault);
    match w.pc
    case StatRoot =>
      RootIsSeen(n0, s, v, w, umask, fault, done, base, spared);
      base' := base;
    case MakeRoot(_) =>
      RootIsMade(n0, s, w, umask, fault, spared);
      done', base' := [w.job.Source()], n0;
    case StatWalk => RootIsSeenAgain(n0, s, v, w, umask, fault, done, base, spared);
    case Read(_) => DirectoryIsRead(n0, s, v, w, umask, fault, done, base, spared);
    case Visit(_) => EntryIsVisited(n0, s, v, w, umask, fault, done, base, spared);
    case MakeDir(p, _) => done' := DirectoryIsMade(n0, s, v, w, umask, fault, done, base, spared);
    case Restore(_, _) =>
      ModeIsRestored(n0, s, v, w, umask, fault, done, base, spared);
      base' := base;
  }

  /** Every step of the worker itself, failing or not. */
  lemma OwnStep(n0: Tree, s: Tree, v: Tree, w: Worker, umask: bv9, choice: Choice, done: seq<Path>, base: Tree,
                spared: Spared)
      returns (done': seq<Path>, base': Tree)
    requires FileTree.Valid(n0) && TreeJob(n0, w.job) && umask & OWNER_RWX == 0
    requires Spares(spared, w, choice) && (w.pc.Copy? && w.pc.from in n0 ==> choice.bytes.None?)
    requires Progress(n0, v, w, done, base, spared) && Seen(n0, s, v, w.job.Source())
    ensures var (e, w') := WorkerStep(s, w, umask, choice);
            w'.job == w.job && Progress(n0, Apply(v, e), w', done', base', spared)
  {
    done', base' := done, base;
    if w.pc.Copy? {
      done', base' := FileIsCopied(n0, s, v, w, umask, choice, done, base, spared);
    } else if InTree(w.pc) {
      done', base' := OwnTreeStep(n0, s, v, w, umask, choice.fault, done, base, spared);
    } else if !w.pc.Done? {
      JobStays(s, w, umask, choice);
      ChecksAreHarmless(n0, s, w, umask, choice, done, base, spared);
    }
  }

  // ---------------------------------------------------------------------------------------------
  // The worker's own directories let it in
  // ---------------------------------------------------------------------------------------------

  /** The directories in the view that the worker created. */
  ghost function OwnDirs(n0: Tree, v: Tree): set<Path> {
    set p | p in v && p !in n0 && v[p].Dir?
  }

  lemma OwnDirsLetIn(n0: Tree, v: Tree, w: Worker, done: seq<Path>, stack: seq<Path>)
    requires w.job.Source() in n0 && Ready(n0, v, w, done, stack)
    ensures LetsIn(v, OwnDirs(n0, v))
  {
  }

  /**
   * The machine does not ask whether owner bits let a call through. It need not, for the directories a recursive worker
   * created itself: wherever it stands, its next creation, removal or chmod is one that their modes allow.
   */
  lemma OwnModesAllowNext(n0: Tree, v: Tree, w: Worker, done: seq<Path>, base: Tree, spared: Spared)
    requires FileTree.Valid(n0) && TreeJob(n0, w.job) && Progress(n0, v, w, done, base, spared)
    ensures w.pc.MakeDir? ==> CreateOutcome(v, OwnDirs(n0, v), None, w.job.Target(w.pc.path)).None?
    ensures w.pc.Copy? && w.pc.at.Creating? ==> CreateOutcome(v, OwnDirs(n0, v), None, w.pc.to).None?
    ensures w.pc.Copy? && w.pc.at.Removing? ==> RemoveOutcome(v, OwnDirs(n0, v), None, w.pc.to).None?
    ensures w.pc.Restore? && w.pc.left > 0 ==>
              LookupOutcome(v, OwnDirs(n0, v), None, w.directories[w.pc.left - 1].path).None?
  {
    match w.pc
    case MakeDir(p, _) => CreationIsAllowed(n0, v, w, done, p);
    case Copy(from, to, _, at) =>
      if at.Creating? {
        CreationIsAllowed(n0, v, w, done, from);
      } else if at.Removing? {
        RemovalIsAllowed(n0, v, w, done, base, from);
      }
    case Restore(left, _) => if left > 0 { RestoringIsAllowed(n0, v, w, done, base, spared); }
    case _ =>
  }

  lemma CreationIsAllowed(n0: Tree, v: Tree, w: Worker, done: seq<Path>, p: Path)
    requires FileTree.Valid(n0) && TreeJob(n0, w.job) && Ready(n0, v, w, done, [p] + w.stack) && p in n0
    ensures w.job.Source() <= p
    ensures var t := Relocate(w.job.Source(), w.job.Destination(), p); CreateOutcome(v, OwnDirs(n0, v), None, t).None?
  {
    TurnIsReady(n0, v, w.job.Source(), w.job.Destination(), done, p, w.stack, w.directories);
    OwnDirsLetIn(n0, v, w, done, [p] + w.stack);
    var t := Relocate(w.job.Source(), w.job.Destination(), p);
    LetInEverywhere(v, OwnDirs(n0, v), t);
    LetInEverywhere(v, OwnDirs(n0, v), Parent(t));
  }

  lemma RemovalIsAllowed(n0: Tree, v: Tree, w: Worker, done: seq<Path>, base: Tree, p: Path)
    requires FileTree.Valid(n0) && TreeJob(n0, w.job) && Ready(n0, base, w, done, [p] + w.stack) && p in n0
    requires w.job.Source() <= p
    requires WithFile(v, base, Relocate(w.job.Source(), w.job.Destination(), p))
    ensures var t := Relocate(w.job.Source(), w.job.Destination(), p); RemoveOutcome(v, OwnDirs(n0, v), None, t).None?
  {
    var t := Relocate(w.job.Source(), w.job.Destination(), p);
    CreationIsAllowed(n0, base, w, done, p);
    RemovableAgain(base, OwnDirs(n0, base), t, v[t]);
    assert OwnDirs(n0, v) == OwnDirs(n0, base);
  }

  lemma RestoringIsAllowed(n0: Tree, v: Tree, w: Worker, done: seq<Path>, base: Tree, spared: Spared)
    requires FileTree.Valid(n0) && TreeJob(n0, w.job)
    requires w.pc.Restore? && w.pc.left > 0 && Restoring(n0, v, w, done, base, spared)
    ensures LookupOutcome(v, OwnDirs(n0, v), None, w.directories[w.pc.left - 1].path).None?
  {
    DirsOfStopped(n0, base, w.job, w.directories, done, spared);
    forall p | p in OwnDirs(n0, v) ensures p in OwnDirs(n0, base) {
      if p in Restored(w.directories, w.pc.left) {
        var i :| w.pc.left <= i < |w.directories| && w.directories[i].path == p;
        assert w.directories[i] in w.directories;
      }
    }
    ReadyForNext(base, v, OwnDirs(n0, v), w.directories, w.pc.left);
  }

  lemma PrefixLetsIn(n0: Tree, base: Tree, src: Path, dst: Path, done: seq<Path>, dirs: seq<PendingMode>,
                          leftover: Option<Node>)
    requires FileTree.Valid(n0) && src in n0 && dst !in n0 && Prefix(n0, base, src, dst, done, dirs, leftover)
    ensures LetsIn(base, OwnDirs(n0, base))
  {
    if leftover.Some? {
      var t := Relocate(src, dst, EntryAt(n0, src, |done|));
      assert base[t] == leftover.value;
    }
  }
}
