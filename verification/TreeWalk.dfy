/**
 * internal/tree/tree.go: clone a directory tree while walking the very file system that is being written.
 *
 * filepath.WalkDir is written out as a loop over an explicit stack: the entry on top is shown to the callback, and if
 * it is a directory it is then read, live, and its contents go on top in lexical order.
 */
module TreeWalks {
  import opened Wrappers
  import opened Protocol
  import opened FileTree
  import opened WalkOrder
  import opened Kernels
  import opened Reflinks
  import opened TreeImages

  /**
   * How a run of ReflinkTree went: whether the destination was created; which entries were copied, in order; what a
   * failing reflink left behind; which suffix of the recorded directories was restored; and the two errors.
   */
  datatype TreeRun = TreeRun(started: bool, done: seq<Path>, left: Option<Node>, restoredFrom: nat,
                             walkErr: Option<Error>, chmodErr: Option<Error>)

  function JoinErrors(walkErr: Option<Error>, chmodErr: Option<Error>): Option<Error> {
    if walkErr.Some? then
      if chmodErr.Some? then Some(Joined([walkErr.value, chmodErr.value])) else walkErr
    else chmodErr
  }

  /** How the errors of the walk and of the restoring are answered together. */
  ghost predicate JoinedAnswer(walkErr: Option<Error>, chmodErr: Option<Error>, err: Option<Error>) {
    match (walkErr, chmodErr)
    case (None, None) => err.None?
    case (Some(_), None) => ResponseFromError(err) == ResponseFromError(walkErr)
    case (None, Some(_)) => ResponseFromError(err) == ResponseFromError(chmodErr)
    case (Some(w), Some(c)) =>
      if AsCoded(w).Some? then ResponseFromError(err) == ResponseFromError(walkErr)
      else if AsCoded(c).Some? then ResponseFromError(err) == ResponseFromError(chmodErr)
      else
        && err.Some?
        && ResponseFromError(err).error.value.code ==
             if CodeRank(CodeFromError(w)) <= CodeRank(CodeFromError(c)) then CodeFromError(w) else CodeFromError(c)
  }

  /** The walk's own error is not lost: if it is coded it decides, else the stronger class does. */
  lemma JoinErrorsAnswer(walkErr: Option<Error>, chmodErr: Option<Error>)
    ensures JoinedAnswer(walkErr, chmodErr, JoinErrors(walkErr, chmodErr))
  {
    if walkErr.Some? && chmodErr.Some? {
      JoinedResponse(walkErr.value, chmodErr.value);
    }
  }

  /** The calls of a walk. */
  const WALK_CALLS :=
    {LstatCall, ReadDirCall, MkdirCall, OpenCall, CreateCall, CloneCall, ChmodCall, CloseCall}

  // ---------------------------------------------------------------------------------------------
  // The callback
  // ---------------------------------------------------------------------------------------------

  lemma StillLetsIn(s: Tree, mine: set<Path>, target: Path, n: Node)
    requires LetsIn(s, mine) && target !in s && Clonable(n)
    ensures LetsIn(s[target := Fresh(n)], if n.Dir? then mine + {target} else mine)
  {
    var s', mine' := s[target := Fresh(n)], if n.Dir? then mine + {target} else mine;
    forall p | p in mine' ensures OwnerMay(s', mine', p, OWNER_RWX) {
      assert p in mine ==> OwnerMay(s, mine, p, OWNER_RWX);
    }
  }

  lemma TemporaryModeSurvivesUmask(umask: bv9)
    requires umask & OWNER_RWX == 0
    ensures TEMPORARY_DIRECTORY_MODE & !umask == TEMPORARY_DIRECTORY_MODE
  {
  }

  /** For a process let in everywhere, a creation that is possible fails for no other than an unknown reason. */
  lemma CreationBlamed(s: Tree, mine: set<Path>, faults: (Call, nat) -> Option<Errno>, c: Call, t: nat, op: string,
                       p: Path)
    requires LetsIn(s, mine) && CreateErrno(s, p).None? && CreateOutcome(s, mine, faults(c, t), p).Some?
    ensures faults(c, t).Some?
    ensures c in WALK_CALLS ==>
              Blamed(faults, WALK_CALLS, t, t + 1, PathError(op, p, CreateOutcome(s, mine, faults(c, t), p).value))
  {
    LetInEverywhere(s, mine, p);
    LetInEverywhere(s, mine, Parent(p));
    if c in WALK_CALLS {
      FailureIsBlamed(faults, c, t, t, t + 1, WALK_CALLS, op, p);
    }
  }

  /** The walk's callback, for a file that can be cloned. */
  method VisitFile(k: Kernel, path: Path, target: Path, mode: FileMode)
    returns (err: Option<Error>, ghost left: Option<Node>)
    requires k.Valid() && path in k.nodes && k.nodes[path].File?
    requires NoLinkAbove(k.nodes, path) && NoLinkAbove(k.nodes, target)
    modifies k`nodes, k`mine, k`clock
    ensures k.Valid() && old(k.clock) < k.clock && k.mine == old(k.mine)
    ensures err.None? ==>
              && CreateErrno(old(k.nodes), target).None?
              && k.nodes == old(k.nodes)[target := CloneOf(old(k.nodes)[path], mode)]
    ensures Made(old(k.nodes), k.nodes, target, left)
    ensures err.Some? && k.Never({RemoveCall, CloseCall}, old(k.clock)) ==> left.None?
    ensures err.Some? && LetsIn(old(k.nodes), old(k.mine)) && CreateErrno(old(k.nodes), target).None? ==>
              Blamed(k.faults, COPY_CALLS, old(k.clock), k.clock, err.value)
  {
    ghost var s, start := k.nodes, k.clock;
    err, left := Reflink(k, path, target, Perm(mode));
    SuccessIsCompletion(s, k.mine, k.faults, start, path, target);
    if err.Some? && LetsIn(s, k.mine) && CreateErrno(s, target).None? {
      LetInEverywhere(s, k.mine, path);
      LetInEverywhere(s, k.mine, target);
      LetInEverywhere(s, k.mine, Parent(target));
      CopyFaultAnswers(s, k.mine, k.faults, start, path, target);
      StillBlamed(k.faults, COPY_CALLS, start, start + CopySpan(k.faults, start), err.value, COPY_CALLS, start,
          k.clock);
    }
  }

  /** The walk's callback, for an entry other than the root of the walk. */
  method VisitEntry(k: Kernel, srcRoot: Path, dstRoot: Path, path: Path)
    returns (err: Option<Error>, pending: seq<PendingMode>, ghost left: Option<Node>)
    requires k.Valid() && srcRoot <= path && path in k.nodes
    requires NoLinkAbove(k.nodes, Relocate(srcRoot, dstRoot, path))
    modifies k`nodes, k`mine, k`clock
    ensures k.Valid() && old(k.clock) < k.clock
    ensures var target, node := Relocate(srcRoot, dstRoot, path), old(k.nodes)[path];
            err.None? ==>
              && Clonable(node) && CreateErrno(old(k.nodes), target).None?
              && k.nodes == old(k.nodes)[target := Fresh(node)]
              && k.mine == (if node.Dir? then old(k.mine) + {target} else old(k.mine))
              && pending == if node.Dir? then [PendingMode(target, ExactDirectoryMode(Info(node).mode))] else []
    ensures err.Some? ==> k.mine == old(k.mine) && pending == []
    ensures err.Some? && left.None? ==> k.nodes == old(k.nodes)
    ensures err.Some? && left.Some? ==>
              && CreateErrno(old(k.nodes), Relocate(srcRoot, dstRoot, path)).None? && left.value.File?
              && k.nodes == old(k.nodes)[Relocate(srcRoot, dstRoot, path) := left.value]
    ensures err.Some? && k.Never({RemoveCall, CloseCall}, old(k.clock)) ==> left.None?
    ensures err.Some? && LetsIn(old(k.nodes), old(k.mine))
            && CreateErrno(old(k.nodes), Relocate(srcRoot, dstRoot, path)).None? ==>
              err == Rejection(old(k.nodes)[path]) || Blamed(k.faults, WALK_CALLS, old(k.clock), k.clock, err.value)
  {
    hide Blamed;
    ghost var s, start := k.nodes, k.clock;
    pending, left := [], None;
    PresentHasNoLinkAbove(k.nodes, path);
    var info := k.Lstat(path);
    if info.Err? {
      if LetsIn(s, k.mine) {
        FailureIsBlamed(k.faults, LstatCall, start, start, k.clock, WALK_CALLS, "lstat", path);
      }
      return Some(info.error), [], None;
    }

    var target := Relocate(srcRoot, dstRoot, path);
    match info.value.mode.kind
    case SymbolicLink =>
      err := Some(NewError(EInval, "symlinks are not supported"));
    case Directory =>
      TemporaryModeSurvivesUmask(k.umask);
      err := k.Mkdir(target, TEMPORARY_DIRECTORY_MODE);
      if err.None? {
        pending := [PendingMode(target, ExactDirectoryMode(info.value.mode))];
      } else if LetsIn(s, k.mine) && CreateErrno(s, target).None? {
        CreationBlamed(s, k.mine, k.faults, MkdirCall, start + 1, "mkdir", target);
        StillBlamed(k.faults, WALK_CALLS, start + 1, k.clock, err.value, WALK_CALLS, start, k.clock);
      }
    case Regular =>
      err := RejectHardlink(info.value);
      if err.None? {
        err, left := VisitFile(k, path, target, info.value.mode);
        if err.Some? && LetsIn(s, k.mine) && CreateErrno(s, target).None? {
          StillBlamed(k.faults, COPY_CALLS, start + 1, k.clock, err.value, WALK_CALLS, start, k.clock);
        }
      }
    case Irregular =>
      err := Some(NewError(EInval, "unsupported file type"));
  }

  // ---------------------------------------------------------------------------------------------
  // The walk
  // ---------------------------------------------------------------------------------------------

  /** A node under `src` that cannot be cloned, and that the walk comes to before it would come to `dst`. */
  ghost predicate StopsBefore(s: Tree, src: Path, dst: Path) {
    exists p :: p in s && src <= p && !Clonable(s[p]) && PathLess(p, dst)
  }

  /** The walk does not follow its own output for ever. */
  ghost predicate ComesToAnEnd(s: Tree, src: Path, dst: Path) {
    src < dst ==> StopsBefore(s, src, dst)
  }

  /**
   * Where the walk starts: with a destination apart from the source, before the destination is made; with a destination
   * inside the source, which the walk will not come to, just after.
   */
  ghost predicate IsBase(s0: Tree, src: Path, dst: Path) {
    if src < dst then
      && dst in s0 && s0[dst] == TEMPORARY && (forall q :: q in s0 && dst <= q ==> q == dst)
      && StopsBefore(s0, src, dst)
    else dst !in s0 && Apart(src, dst)
  }

  lemma NothingBelowDestination(s0: Tree, src: Path, dst: Path, q: Path)
    requires FileTree.Valid(s0) && IsBase(s0, src, dst) && dst < q
    ensures q !in s0
  {
    if dst !in s0 {
      NothingBelowAbsent(s0, dst, q);
    }
  }

  /** The tree under `src`, as far as the walk will come, is out of reach of what is created under `dst`. */
  lemma SourceIsFrozen(s0: Tree, s: Tree, src: Path, dst: Path, done: seq<Path>, p: Path)
    requires IsBase(s0, src, dst) && Copyable(s0, src, done) && Built(s0, s, src, dst, done, {})
    requires src <= p && p in s0 && (src < dst ==> PathLess(p, dst))
    ensures p in s && s[p] == s0[p] && ChildPaths(s, p) == ChildPaths(s0, p)
  {
    if src < dst {
      LessIsNotBelow(p, dst);
    }
    forall q | p <= q && |q| == |p| + 1 ensures q in s <==> q in s0 {
      assert src <= q;
      assert dst <= q ==> q == dst;
    }
    ContentsUnique(s0, p, ChildPaths(s, p), ChildPaths(s0, p));
  }

  /** A destination inside the source is not what is visited next. */
  lemma NextIsBefore(s0: Tree, src: Path, dst: Path, done: seq<Path>, n: nat)
    requires FileTree.Valid(s0) && src in s0 && IsBase(s0, src, dst) && src < dst
    requires Copyable(s0, src, done) && done <= Preorder(s0, src) && n <= |done|
    ensures n < |Preorder(s0, src)| && PathLess(Preorder(s0, src)[n], dst)
  {
    var all := Preorder(s0, src);
    PreorderIsTheSortedSubtree(s0, src);
    var p :| p in s0 && src <= p && !Clonable(s0[p]) && PathLess(p, dst);
    assert p in all;
    var i :| 0 <= i < |all| && all[i] == p;
    assert forall j | 0 <= j < |done| :: all[j] == done[j] && done[j] in done;
    if n < i {
      PathLessTransitive(all[n], p, dst);
    }
  }

  /** In walk order an entry is preceded by its parent, and by nothing equal to it. */
  lemma NextEntry(s0: Tree, src: Path, done: seq<Path>, p: Path, rest: seq<Path>)
    requires FileTree.Valid(s0) && src in s0
    requires done != [] && done[0] == src && done + [p] + rest == Preorder(s0, src)
    ensures src < p && p in s0 && p !in done && Parent(p) in done && IsDirAt(s0, Parent(p))
  {
    var all, n := Preorder(s0, src), |done|;
    PreorderIsTheSortedSubtree(s0, src);
    assert all[n] == p && p in all && all[0] == src;
    if i :| 0 <= i < n && done[i] == p {
      assert all[i] == p;
      SortedIsDuplicateFree(all, i, n);
    }
    assert p != src;
    assert src <= Parent(p) && Parent(p) < p;
    assert Parent(p) in all;
    var i :| 0 <= i < |all| && all[i] == Parent(p);
    AncestorIsEarlier(all, i, n);
    assert done[i] == Parent(p);
  }

  /** The next entry's copy has a directory to go into and its name is free. */
  lemma NextIsFree(s0: Tree, s: Tree, src: Path, dst: Path, done: seq<Path>, p: Path)
    requires FileTree.Valid(s0) && FileTree.Valid(s) && IsBase(s0, src, dst)
    requires Copyable(s0, src, done) && Built(s0, s, src, dst, done, {})
    requires src < p && p !in done && Parent(p) in done && IsDirAt(s0, Parent(p))
    ensures CreateErrno(s, Relocate(src, dst, p)).None? && NoLinkAbove(s, Relocate(src, dst, p))
  {
    var target, above := Relocate(src, dst, p), Relocate(src, dst, Parent(p));
    RelocateOrigin(src, dst, p);
    RelocateOrigin(src, dst, Parent(p));
    NothingBelowDestination(s0, src, dst, target);
    assert Parent(target) == above;
    assert above in s && s[above].Dir? by {
      if above in s0 && above != dst {
        NothingBelowDestination(s0, src, dst, above);
      }
    }
    PresentHasNoLinkAbove(s, target);
  }

  /** The walk's state between two turns: what was copied, and after it what is still to come, is the whole walk. */
  ghost predicate Walking(s0: Tree, s: Tree, src: Path, dst: Path, done: seq<Path>, stack: seq<Path>,
                          directories: seq<PendingMode>)
    requires src in s0
  {
    && Copyable(s0, src, done) && Built(s0, s, src, dst, done, {})
    && (forall q :: q in stack ==> q in s0)
    && done != [] && done[0] == src && done + Pending(s0, stack) == Preorder(s0, src)
    && directories == PendingModes(s0, src, dst, done)
  }

  /** The entry at a position of the walk. */
  ghost function EntryAt(s0: Tree, src: Path, i: nat): (p: Path)
    requires FileTree.Valid(s0) && src in s0 && i < |Preorder(s0, src)|
    ensures p in s0 && src <= p
  {
    PreorderIsTheSortedSubtree(s0, src);
    assert Preorder(s0, src)[i] in Preorder(s0, src);
    Preorder(s0, src)[i]
  }

  /** What a walk leaves, however it ends: the copies of a prefix, and perhaps one leftover at the entry after it. */
  ghost predicate Prefix(s0: Tree, s: Tree, src: Path, dst: Path, done: seq<Path>, directories: seq<PendingMode>,
                         left: Option<Node>)
    requires FileTree.Valid(s0) && src in s0
  {
    && Copyable(s0, src, done) && done != [] && done <= Preorder(s0, src)
    && directories == PendingModes(s0, src, dst, done)
    && match left
       case None => Built(s0, s, src, dst, done, {})
       case Some(node) =>
         && node.File? && |done| < |Preorder(s0, src)|
         && var t := Relocate(src, dst, EntryAt(s0, src, |done|));
         && t !in s0 && t !in done && Copyable(s0[t := node], src, done)
         && Built(s0[t := node], s, src, dst, done, {})
  }

  /** Before a turn: the entry on top is an untouched source entry, and its copy can be created. */
  lemma TurnIsReady(s0: Tree, s: Tree, src: Path, dst: Path, done: seq<Path>, path: Path, rest: seq<Path>,
                    directories: seq<PendingMode>)
    requires FileTree.Valid(s0) && FileTree.Valid(s) && src in s0 && IsBase(s0, src, dst)
    requires Walking(s0, s, src, dst, done, [path] + rest, directories)
    ensures src < path && path in s0 && path in s && s[path] == s0[path] && path !in done
    ensures CreateErrno(s, Relocate(src, dst, path)).None? && NoLinkAbove(s, Relocate(src, dst, path))
    ensures |done| < |Preorder(s0, src)| && EntryAt(s0, src, |done|) == path && (src < dst ==> PathLess(path, dst))
    ensures Prefix(s0, s, src, dst, done, directories, None)
    ensures done + [path] + Pending(s0, ChildPaths(s0, path) + rest) == Preorder(s0, src)
  {
    PendingStep(s0, path, rest);
    ghost var after := Pending(s0, ChildPaths(s0, path) + rest);
    assert done + [path] + after == Preorder(s0, src);
    NextEntry(s0, src, done, path, after);
    if src < dst {
      NextIsBefore(s0, src, dst, done, |done|);
    }
    NextIsFree(s0, s, src, dst, done, path);
    SourceIsFrozen(s0, s, src, dst, done, path);
  }

  /** After a turn that created the copy. */
  lemma TurnGrows(s0: Tree, s: Tree, src: Path, dst: Path, done: seq<Path>, path: Path, rest: seq<Path>,
                  directories: seq<PendingMode>, pending: seq<PendingMode>)
    requires FileTree.Valid(s0) && FileTree.Valid(s) && src in s0 && IsBase(s0, src, dst)
    requires Walking(s0, s, src, dst, done, [path] + rest, directories)
    requires src <= path && path in s0 && Clonable(s0[path]) && Relocate(src, dst, path) !in s
    requires pending == if s0[path].Dir? then
                          [PendingMode(Relocate(src, dst, path), ExactDirectoryMode(Info(s0[path]).mode))]
                        else []
    ensures var s' := s[Relocate(src, dst, path) := Fresh(s0[path])];
            && Walking(s0, s', src, dst, done + [path], ChildPaths(s0, path) + rest, directories + pending)
            && Prefix(s0, s', src, dst, done + [path], directories + pending, None)
            && path in s' && s'[path] == s0[path] && ChildPaths(s', path) == ChildPaths(s0, path)
    ensures |Pending(s0, ChildPaths(s0, path) + rest)| < |Pending(s0, [path] + rest)|
    ensures !s0[path].Dir? ==> ChildPaths(s0, path) + rest == rest
  {
    PendingStep(s0, path, rest);
    TurnIsReady(s0, s, src, dst, done, path, rest, directories);
    BuiltGrows(s0, s, src, dst, done, path);
    PendingModesStep(s0, src, dst, done, path);
    SourceIsFrozen(s0, s[Relocate(src, dst, path) := Fresh(s0[path])], src, dst, done + [path], path);
    if !s0[path].Dir? {
      OnlyDirectoriesHaveContents(s0, path);
      assert [] + rest == rest;
    }
  }

  /** After a turn that failed and left something behind. */
  lemma TurnLeaves(s0: Tree, s: Tree, src: Path, dst: Path, done: seq<Path>, path: Path, directories: seq<PendingMode>,
                   left: Node)
    requires FileTree.Valid(s0) && src in s0 && IsBase(s0, src, dst)
    requires Prefix(s0, s, src, dst, done, directories, None)
    requires |done| < |Preorder(s0, src)| && EntryAt(s0, src, |done|) == path
    requires Relocate(src, dst, path) !in s && left.File?
    ensures Prefix(s0, s[Relocate(src, dst, path) := left], src, dst, done, directories, Some(left))
  {
    LeftoverIsApart(s0, s, src, dst, done, path, left);
  }

  /** The walk as it moves when no call fails: the nodes, and the entries whose turn is to come. */
  datatype WalkState = WalkState(nodes: Tree, stack: seq<Path>)

  /** A turn in which nothing fails; None if something must. */
  ghost function Move(src: Path, dst: Path, st: WalkState): Option<WalkState>
    requires st.stack != []
  {
    var path, rest := st.stack[0], st.stack[1..];
    if src <= path && path in st.nodes && Clonable(st.nodes[path])
       && CreateErrno(st.nodes, Relocate(src, dst, path)).None? then
      var nodes := st.nodes[Relocate(src, dst, path) := Fresh(st.nodes[path])];
      Some(WalkState(nodes, ChildPaths(nodes, path) + rest))
    else None
  }

  lemma MoveIs(src: Path, dst: Path, s: Tree, path: Path, rest: seq<Path>)
    requires src <= path && path in s && Clonable(s[path]) && CreateErrno(s, Relocate(src, dst, path)).None?
    ensures var s' := s[Relocate(src, dst, path) := Fresh(s[path])];
            Move(src, dst, WalkState(s, [path] + rest)) == Some(WalkState(s', ChildPaths(s', path) + rest))
  {
    assert ([path] + rest)[0] == path && ([path] + rest)[1..] == rest;
  }

  /** One turn: the entry on top of the stack. */
  method Turn(k: Kernel, srcRoot: Path, dstRoot: Path, ghost s0: Tree, ghost letIn: bool,
              path: Path, rest: seq<Path>, directories: seq<PendingMode>, ghost done: seq<Path>)
    returns (walkErr: Option<Error>, stack: seq<Path>, directories': seq<PendingMode>, ghost done': seq<Path>,
             ghost left: Option<Node>)
    requires k.Valid() && FileTree.Valid(s0) && srcRoot in s0 && IsBase(s0, srcRoot, dstRoot)
    requires Walking(s0, k.nodes, srcRoot, dstRoot, done, [path] + rest, directories)
    requires letIn ==> LetsIn(k.nodes, k.mine)
    modifies k`nodes, k`mine, k`clock
    ensures k.Valid() && old(k.clock) < k.clock
    ensures letIn ==> LetsIn(k.nodes, k.mine)
    ensures walkErr.None? ==>
              && Walking(s0, k.nodes, srcRoot, dstRoot, done', stack, directories')
              && |Pending(s0, stack)| < |Pending(s0, [path] + rest)|
              && Move(srcRoot, dstRoot, WalkState(old(k.nodes), [path] + rest)) == Some(WalkState(k.nodes, stack))
    ensures walkErr.Some? ==> Prefix(s0, k.nodes, srcRoot, dstRoot, done', directories', left)
    ensures walkErr.Some? && k.Never({RemoveCall, CloseCall}, old(k.clock)) ==> left.None?
    ensures letIn && walkErr.Some? ==>
              || Blamed(k.faults, WALK_CALLS, old(k.clock), k.clock, walkErr.value)
              || (|done'| < |Preorder(s0, srcRoot)| && walkErr == Rejection(s0[EntryAt(s0, srcRoot, |done'|)]))
  {
    hide Walking;
    hide Prefix;
    hide Move;
    hide Blamed;
    ghost var before := k.nodes;
    TurnIsReady(s0, before, srcRoot, dstRoot, done, path, rest, directories);
    var isDir := k.nodes[path].Dir?;
    var pending;
    walkErr, pending, left := VisitEntry(k, srcRoot, dstRoot, path);
    if walkErr.Some? {
      stack, directories', done' := [], directories, done;
      if left.Some? {
        TurnLeaves(s0, before, srcRoot, dstRoot, done, path, directories, left.value);
      }
      return;
    }
    TurnGrows(s0, before, srcRoot, dstRoot, done, path, rest, directories, pending);
    MoveIs(srcRoot, dstRoot, before, path, rest);
    if letIn {
      StillLetsIn(before, old(k.mine), Relocate(srcRoot, dstRoot, path), before[path]);
    }
    left, stack, directories', done' := None, rest, directories + pending, done + [path];
    if isDir {
      ghost var visited := k.clock;
      walkErr, stack := ReadContents(k, path, rest, letIn);
      if letIn && walkErr.Some? {
        StillBlamed(k.faults, {ReadDirCall}, visited, k.clock, walkErr.value, WALK_CALLS, old(k.clock), k.clock);
      }
    }
  }

  /** The reading of a directory just visited; its contents go on top of the stack. */
  method ReadContents(k: Kernel, path: Path, rest: seq<Path>, ghost letIn: bool)
    returns (err: Option<Error>, stack: seq<Path>)
    requires k.Valid() && IsDirAt(k.nodes, path)
    requires letIn ==> LetsIn(k.nodes, k.mine)
    modifies k`clock
    ensures k.Valid() && old(k.clock) < k.clock
    ensures err.None? ==> stack == ChildPaths(k.nodes, path) + rest
    ensures letIn && err.Some? ==> Blamed(k.faults, {ReadDirCall}, old(k.clock), k.clock, err.value)
  {
    PresentHasNoLinkAbove(k.nodes, path);
    if letIn { LetInEverywhere(k.nodes, k.mine, path); }
    var contents := k.ReadDir(path);
    if contents.Err? {
      if letIn {
        FailureIsBlamed(k.faults, ReadDirCall, old(k.clock), old(k.clock), k.clock, {ReadDirCall}, "open", path);
      }
      return Some(contents.error), rest;
    }
    return None, contents.value + rest;
  }

  /**
   * The walk. Whatever fails and whenever, what exists under the destination is a prefix, in walk order, of the copies
   * to make.
   */
  method Walk(k: Kernel, srcRoot: Path, dstRoot: Path, ghost s0: Tree, ghost letIn: bool, rootMode: FileMode)
    returns (walkErr: Option<Error>, directories: seq<PendingMode>, ghost done: seq<Path>, ghost left: Option<Node>)
    requires k.Valid() && FileTree.Valid(s0) && IsDirAt(s0, srcRoot) && IsBase(s0, srcRoot, dstRoot)
    requires k.nodes == s0[dstRoot := TEMPORARY] && rootMode == Info(s0[srcRoot]).mode
    requires letIn ==> LetsIn(k.nodes, k.mine)
    modifies k`nodes, k`mine, k`clock
    ensures k.Valid() && old(k.clock) <= k.clock
    ensures letIn ==> LetsIn(k.nodes, k.mine)
    ensures Prefix(s0, k.nodes, srcRoot, dstRoot, done, directories, left)
    ensures k.Never({RemoveCall, CloseCall}, old(k.clock)) ==> left.None?
    ensures walkErr.None? ==> done == Preorder(s0, srcRoot) && left.None?
    ensures letIn && walkErr.Some? ==>
              || Blamed(k.faults, WALK_CALLS, old(k.clock), k.clock, walkErr.value)
              || (|done| < |Preorder(s0, srcRoot)| && walkErr == Rejection(s0[EntryAt(s0, srcRoot, |done|)]))
  {
    hide Blamed;
    left, walkErr := None, None;
    directories := [PendingMode(dstRoot, ExactDirectoryMode(rootMode))];
    done := [srcRoot];
    StartOfWalk(s0, k.nodes, srcRoot, dstRoot, directories);

    // The callback answers for the root at once; the root is then read.
    PresentHasNoLinkAbove(k.nodes, srcRoot);
    if letIn { LetInEverywhere(k.nodes, k.mine, srcRoot); }
    var info := k.Lstat(srcRoot);
    if info.Err? {
      if letIn {
        FailureIsBlamed(k.faults, LstatCall, old(k.clock), old(k.clock), k.clock, WALK_CALLS, "lstat", srcRoot);
      }
      walkErr := Some(info.error);
      return;
    }
    var stack;
    ghost var seen := k.clock;
    walkErr, stack := ReadContents(k, srcRoot, [], letIn);
    if walkErr.Some? {
      if letIn {
        StillBlamed(k.faults, {ReadDirCall}, seen, k.clock, walkErr.value, WALK_CALLS, old(k.clock), k.clock);
      }
      return;
    }
    assert stack == ChildPaths(s0, srcRoot);
    while stack != []
      invariant k.Valid() && old(k.clock) <= k.clock
      invariant letIn ==> LetsIn(k.nodes, k.mine)
      invariant walkErr.None? && left.None? && Walking(s0, k.nodes, srcRoot, dstRoot, done, stack, directories)
      decreases |Pending(s0, stack)|
    {
      var path, rest := stack[0], stack[1..];
      assert stack == [path] + rest;
      ghost var before := k.clock;
      walkErr, stack, directories, done, left := Turn(k, srcRoot, dstRoot, s0, letIn, path, rest, directories, done);
      if walkErr.Some? {
        if Blamed(k.faults, WALK_CALLS, before, k.clock, walkErr.value) {
          StillBlamed(k.faults, WALK_CALLS, before, k.clock, walkErr.value, WALK_CALLS, old(k.clock), k.clock);
        }
        return;
      }
      left := None;
    }
    assert stack == [] && Pending(s0, stack) == [];
    assert done + Pending(s0, stack) == done;
  }

  lemma StartOfWalk(s0: Tree, s: Tree, src: Path, dst: Path, directories: seq<PendingMode>)
    requires FileTree.Valid(s0) && IsDirAt(s0, src) && IsBase(s0, src, dst)
    requires s == s0[dst := TEMPORARY]
    requires directories == [PendingMode(dst, ExactDirectoryMode(Info(s0[src]).mode))]
    ensures src in s && s[src] == s0[src] && ChildPaths(s, src) == ChildPaths(s0, src)
    ensures Walking(s0, s, src, dst, [src], ChildPaths(s0, src), directories)
    ensures Prefix(s0, s, src, dst, [src], directories, None)
  {
    BuiltAtStart(s0, s, src, dst);
    if src < dst {
      PrefixIsLess(src, dst);
    }
    assert Copyable(s0, src, [] + [src]);
    PendingModesStep(s0, src, dst, [], src);
    assert [] + [src] == [src];
    assert Relocate(src, dst, src) == dst;
    PreorderIsHeadThenPending(s0, src);
    SourceIsFrozen(s0, s, src, dst, [src], src);
  }

  lemma LeftoverIsApart(s0: Tree, s: Tree, src: Path, dst: Path, done: seq<Path>, p: Path, left: Node)
    requires FileTree.Valid(s0) && IsBase(s0, src, dst) && src <= p && Relocate(src, dst, p) !in s
    requires Copyable(s0, src, done) && Built(s0, s, src, dst, done, {})
    ensures var t := Relocate(src, dst, p);
            && t !in s0 && t !in done && Copyable(s0[t := left], src, done)
            && Built(s0[t := left], s[t := left], src, dst, done, {})
  {
    var t := Relocate(src, dst, p);
    RelocateOrigin(src, dst, p);
    if t in s0 && t != dst {
      NothingBelowDestination(s0, src, dst, t);
    }
    BuiltWithLeftover(s0, s, src, dst, done, t, left);
  }

  // ---------------------------------------------------------------------------------------------
  // Restoring directory modes
  // ---------------------------------------------------------------------------------------------

  ghost function Restored(dirs: seq<PendingMode>, from: nat): set<Path>
    requires from <= |dirs|
  {
    set i | from <= i < |dirs| :: dirs[i].path
  }

  /** `s` differs from `s0` only in that the directories from `from` on have their recorded modes. */
  ghost predicate ModesSet(s0: Tree, s: Tree, dirs: seq<PendingMode>, from: nat)
    requires from <= |dirs|
  {
    && (forall q {:trigger q in s} :: q in s <==> q in s0)
    && (forall i | from <= i < |dirs| :: dirs[i].path in s && s[dirs[i].path] == Dir(dirs[i].mode.attr))
    && (forall q {:trigger s[q]} :: q in s && q !in Restored(dirs, from) ==> s[q] == s0[q])
  }

  /**
   * The loop from the back of the list. What it gets done is a suffix; and as long as no chmod fails for an unknown
   * reason it gets everything done, whatever modes it sets: at each turn the ancestors of the directory, coming earlier
   * in the list, still have the temporary mode.
   */
  method RestoreDirectoryModes(k: Kernel, directories: seq<PendingMode>)
    returns (err: Option<Error>, ghost from: nat)
    requires k.Valid() && StrictlySorted(PathsIn(directories))
    requires forall d :: d in directories ==> IsDirAt(k.nodes, d.path)
    modifies k`nodes, k`clock
    ensures k.Valid() && old(k.clock) <= k.clock
    ensures from <= |directories| && ModesSet(old(k.nodes), k.nodes, directories, from)
    ensures err.None? <==> from == 0
    ensures err.Some? && LetsIn(old(k.nodes), k.mine) ==>
              Blamed(k.faults, {ChmodCall}, old(k.clock), k.clock, err.value)
  {
    err, from := None, |directories|;
    var index := |directories|;
    while index > 0
      invariant k.Valid() && old(k.clock) <= k.clock
      invariant err.None? && index == from <= |directories| && ModesSet(old(k.nodes), k.nodes, directories, from)
    {
      var directory := directories[index - 1];
      ReadyForNext(old(k.nodes), k.nodes, k.mine, directories, from);
      ghost var before, t := k.nodes, k.clock;
      err := k.Chmod(directory.path, directory.mode);
      if err.Some? {
        if LetsIn(old(k.nodes), k.mine) {
          FailureIsBlamed(k.faults, ChmodCall, t, old(k.clock), k.clock, {ChmodCall}, "chmod", directory.path);
        }
        return;
      }
      SetOneMore(old(k.nodes), before, directories, from);
      index, from := index - 1, from - 1;
    }
  }

  lemma RestoringKeepsDirs(s0: Tree, s: Tree, dirs: seq<PendingMode>, from: nat)
    requires from <= |dirs| && ModesSet(s0, s, dirs, from)
    requires forall d :: d in dirs ==> IsDirAt(s0, d.path)
    ensures forall d :: d in dirs ==> IsDirAt(s, d.path)
  {
    forall d | d in dirs ensures IsDirAt(s, d.path) {
      assert d.path in s;
      if d.path !in Restored(dirs, from) {
        assert s[d.path] == s0[d.path];
      }
    }
  }

  /** No directory restored so far is an ancestor of the one whose turn it is: they are as they were, and let it in. */
  lemma AncestorsStillOpen(s0: Tree, s: Tree, mine: set<Path>, dirs: seq<PendingMode>, i: nat)
    requires i < |dirs| && StrictlySorted(PathsIn(dirs)) && ModesSet(s0, s, dirs, i + 1)
    ensures forall j | 0 <= j < |dirs[i].path| && dirs[i].path[..j] in s ::
              s[dirs[i].path[..j]] == s0[dirs[i].path[..j]]
    ensures LetsIn(s0, mine) ==> Searchable(s, mine, dirs[i].path)
  {
    var p := dirs[i].path;
    forall j | 0 <= j < |p| && p[..j] in s
      ensures p[..j] in s0 && s[p[..j]] == s0[p[..j]]
    {
      if x :| i + 1 <= x < |dirs| && dirs[x].path == p[..j] {
        AncestorIsEarlier(PathsIn(dirs), x, i);
      }
      assert p[..j] !in Restored(dirs, i + 1);
    }
    if LetsIn(s0, mine) {
      forall j | 0 <= j < |p| ensures OwnerMay(s, mine, p[..j], OWNER_X) {
        OwnerMayAll(s0, mine, p[..j]);
      }
    }
  }

  /** The next directory is there, no link leads to it, and its ancestors let the process through. */
  lemma ReadyForNext(s0: Tree, s: Tree, mine: set<Path>, dirs: seq<PendingMode>, from: nat)
    requires 0 < from <= |dirs| && ModesSet(s0, s, dirs, from) && StrictlySorted(PathsIn(dirs)) && FileTree.Valid(s)
    requires forall d :: d in dirs ==> IsDirAt(s0, d.path)
    ensures IsDirAt(s, dirs[from - 1].path) && NoLinkAbove(s, dirs[from - 1].path)
    ensures LetsIn(s0, mine) ==> LookupOutcome(s, mine, None, dirs[from - 1].path).None?
  {
    assert dirs[from - 1] in dirs;
    RestoringKeepsDirs(s0, s, dirs, from);
    PresentHasNoLinkAbove(s, dirs[from - 1].path);
    if LetsIn(s0, mine) {
      AncestorsStillOpen(s0, s, mine, dirs, from - 1);
    }
  }

  lemma SetOneMore(s0: Tree, s: Tree, dirs: seq<PendingMode>, from: nat)
    requires 0 < from <= |dirs| && ModesSet(s0, s, dirs, from) && StrictlySorted(PathsIn(dirs))
    requires IsDirAt(s, dirs[from - 1].path)
    ensures var d := dirs[from - 1]; ModesSet(s0, s[d.path := SetAttr(s[d.path], d.mode.attr)], dirs, from - 1)
  {
    var d := dirs[from - 1];
    var s' := s[d.path := SetAttr(s[d.path], d.mode.attr)];
    assert d.path in Restored(dirs, from - 1);
    forall i | from - 1 <= i < |dirs| ensures dirs[i].path in s' && s'[dirs[i].path] == Dir(dirs[i].mode.attr) {
      if i >= from && dirs[i].path == d.path {
        SortedIsDuplicateFree(PathsIn(dirs), i, from - 1);
      }
    }
    assert Restored(dirs, from) <= Restored(dirs, from - 1);
  }

  // ---------------------------------------------------------------------------------------------
  // The whole operation
  // ---------------------------------------------------------------------------------------------

  /** The tree a run starts from, with its leftover added. */
  ghost function WithLeftover(s0: Tree, src: Path, dst: Path, run: TreeRun): Tree
    requires FileTree.Valid(s0) && src in s0
    requires run.left.Some? ==> |run.done| < |Preorder(s0, src)|
  {
    if run.left.None? then s0
    else s0[Relocate(src, dst, EntryAt(s0, src, |run.done|)) := run.left.value]
  }

  /**
   * What a run that created its destination leaves, whatever failed: the copies of a prefix of the walk, the
   * directories from some point of their creation order on with their final modes and those before it still temporary,
   * perhaps a leftover at the entry after the prefix, and nothing else changed.
   */
  ghost predicate Leaves(s0: Tree, s: Tree, src: Path, dst: Path, run: TreeRun)
    requires FileTree.Valid(s0) && src in s0
  {
    && run.done != [] && run.done <= Preorder(s0, src) && Copyable(s0, src, run.done)
    && (run.left.Some? ==>
          && run.left.value.File? && run.walkErr.Some? && |run.done| < |Preorder(s0, src)|
          && Relocate(src, dst, EntryAt(s0, src, |run.done|)) !in s0)
    && Copyable(WithLeftover(s0, src, dst, run), src, run.done)
    && var dirs := PendingModes(s0, src, dst, run.done);
    && run.restoredFrom <= |dirs|
    && Built(WithLeftover(s0, src, dst, run), s, src, dst, run.done, Restored(dirs, run.restoredFrom))
  }

  lemma PrefixThenModes(s0: Tree, s1: Tree, s: Tree, src: Path, dst: Path, run: TreeRun)
    requires FileTree.Valid(s0) && src in s0 && dst !in s0 && Copyable(s0, src, run.done)
    requires Prefix(s0, s1, src, dst, run.done, PendingModes(s0, src, dst, run.done), run.left)
    requires run.left.Some? ==> run.walkErr.Some?
    requires run.restoredFrom <= |PendingModes(s0, src, dst, run.done)|
    requires ModesSet(s1, s, PendingModes(s0, src, dst, run.done), run.restoredFrom)
    ensures Leaves(s0, s, src, dst, run)
  {
    var base, dirs := WithLeftover(s0, src, dst, run), PendingModes(s0, src, dst, run.done);
    PendingModesMembers(s0, src, dst, run.done);
    var restored := Restored(dirs, run.restoredFrom);
    forall p | p in run.done ensures base[p] == s0[p] {
    }
    forall q | q in s && q in restored ensures q !in base && s[q] == Finished(base[Origin(src, dst, q)]) {
      var i :| run.restoredFrom <= i < |dirs| && dirs[i].path == q;
      assert dirs[i] in dirs;
      NothingBelowAbsent(s0, dst, q);
      if run.left.Some? {
        var t := Relocate(src, dst, EntryAt(s0, src, |run.done|));
        if q == t {
          RelocateOrigin(src, dst, EntryAt(s0, src, |run.done|));
          NextIsNotDone(s0, src, run.done);
        }
      }
    }
    forall q | q in s && q !in restored ensures s[q] == s1[q] && q in s1 {
    }
    assert Built(base, s, src, dst, run.done, restored);
  }

  lemma NextIsNotDone(s0: Tree, src: Path, done: seq<Path>)
    requires FileTree.Valid(s0) && src in s0 && done <= Preorder(s0, src) && |done| < |Preorder(s0, src)|
    ensures EntryAt(s0, src, |done|) !in done
  {
    var all := Preorder(s0, src);
    PreorderIsTheSortedSubtree(s0, src);
    if i :| 0 <= i < |done| && done[i] == all[|done|] {
      SortedIsDuplicateFree(all, i, |done|);
    }
  }

  /** Every node at or below `src` can be cloned. */
  ghost predicate AllClonable(s: Tree, src: Path) {
    forall p :: p in s && src <= p ==> Clonable(s[p])
  }

  /** `p` comes first, in lexical walk order, among the nodes under `src` that cannot be cloned. */
  ghost predicate FirstUnclonable(s: Tree, src: Path, p: Path) {
    && p in s && src <= p && !Clonable(s[p])
    && forall q :: q in s && src <= q && PathLess(q, p) ==> Clonable(s[q])
  }

  lemma StopsAtFirstUnclonable(s0: Tree, src: Path, done: seq<Path>, err: Option<Error>)
    requires FileTree.Valid(s0) && src in s0 && done <= Preorder(s0, src) && Copyable(s0, src, done)
    requires |done| < |Preorder(s0, src)| && err.Some? && err == Rejection(s0[EntryAt(s0, src, |done|)])
    ensures FirstUnclonable(s0, src, EntryAt(s0, src, |done|))
    ensures !AllClonable(s0, src)
  {
    var all, n := Preorder(s0, src), |done|;
    PreorderIsTheSortedSubtree(s0, src);
    forall q | q in s0 && src <= q && PathLess(q, all[n]) ensures Clonable(s0[q]) {
      assert q in all;
      var i :| 0 <= i < |all| && all[i] == q;
      if i >= n {
        PathLessIrreflexive(all[n]);
        assert i > n ==> PathLess(all[n], all[i]);
        PathLessAsymmetric(all[n], q);
      }
      assert q == done[i];
    }
  }

  lemma CompletesIsClone(s0: Tree, s: Tree, src: Path, dst: Path, run: TreeRun)
    requires FileTree.Valid(s0) && src in s0 && dst !in s0
    requires Leaves(s0, s, src, dst, run) && run.left.None? && run.restoredFrom == 0
    requires run.done == Preorder(s0, src)
    ensures IsTreeClone(s0, s, src, dst) && AllClonable(s0, src)
  {
    var dirs := PendingModes(s0, src, dst, run.done);
    PreorderIsTheSortedSubtree(s0, src);
    PendingModesMembers(s0, src, dst, run.done);
    forall p | p in run.done && s0[p].Dir? ensures Relocate(src, dst, p) in Restored(dirs, 0) {
      var d := PendingMode(Relocate(src, dst, p), ExactDirectoryMode(Info(s0[p]).mode));
      assert d in dirs;
      var i :| 0 <= i < |dirs| && dirs[i] == d;
    }
    CompleteIsClone(s0, s, src, dst, run.done, Restored(dirs, 0));
  }

  /**
   * Why a run failed: its walk came to the first entry that cannot be cloned, or one of its calls failed; and its
   * restoring stopped at a chmod that failed.
   */
  ghost predicate RunAnswered(s0: Tree, src: Path, faults: (Call, nat) -> Option<Errno>, from: nat, to: nat,
                              run: TreeRun)
    requires FileTree.Valid(s0) && src in s0
  {
    && (run.walkErr.Some? ==>
          || Blamed(faults, WALK_CALLS, from, to, run.walkErr.value)
          || (|run.done| < |Preorder(s0, src)|
              && var stop := EntryAt(s0, src, |run.done|);
              && FirstUnclonable(s0, src, stop) && run.walkErr == Rejection(s0[stop])))
    && (run.chmodErr.Some? ==> Blamed(faults, {ChmodCall}, from, to, run.chmodErr.value))
  }

  /** What keeps a tree from being started on, and how that is answered. */
  ghost predicate Unstartable(s: Tree, src: Path, dst: Path, err: Error) {
    if src !in s then Answers(err, Missing(s, src))
    else if !s[src].Dir? then ResponseFromError(Some(err)) == FailureResponse(EInval, "source must be a directory")
    else CreateErrno(s, dst).Some? && Answers(err, CreateErrno(s, dst).value)
  }

  /** For a process let in everywhere, looking fails because nothing is there, or for an unknown reason. */
  lemma LookupBlamed(s: Tree, mine: set<Path>, faults: (Call, nat) -> Option<Errno>, t: nat, p: Path)
    requires LookupOutcome(s, mine, faults(LstatCall, t), p).Some?
    ensures var err := PathError("lstat", p, LookupOutcome(s, mine, faults(LstatCall, t), p).value);
            LetsIn(s, mine) ==>
              || Blamed(faults, {LstatCall, MkdirCall}, t, t + 1, err)
              || (p !in s && Answers(err, Missing(s, p)))
  {
    ErrorAnswers("lstat", p, LookupOutcome(s, mine, faults(LstatCall, t), p).value);
    if faults(LstatCall, t).Some? {
      FailureIsBlamed(faults, LstatCall, t, t, t + 1, {LstatCall, MkdirCall}, "lstat", p);
    } else if LetsIn(s, mine) {
      LetInEverywhere(s, mine, p);
    }
  }

  /** The same about the making of the destination's root. */
  lemma MakingBlamed(s: Tree, mine: set<Path>, faults: (Call, nat) -> Option<Errno>, t: nat, p: Path, err: Error,
                     from: nat)
    requires from <= t && Some(err) == ToError("mkdir", p, CreateOutcome(s, mine, faults(MkdirCall, t), p))
    ensures LetsIn(s, mine) ==>
              || Blamed(faults, {LstatCall, MkdirCall}, from, t + 1, err)
              || (CreateErrno(s, p).Some? && Answers(err, CreateErrno(s, p).value))
  {
    ErrorAnswers("mkdir", p, CreateOutcome(s, mine, faults(MkdirCall, t), p).value);
    if faults(MkdirCall, t).Some? {
      FailureIsBlamed(faults, MkdirCall, t, from, t + 1, {LstatCall, MkdirCall}, "mkdir", p);
    } else if LetsIn(s, mine) {
      LetInEverywhere(s, mine, p);
      if p != [] {
        LetInEverywhere(s, mine, Parent(p));
      }
    }
  }

  lemma RunStillAnswered(s0: Tree, src: Path, faults: (Call, nat) -> Option<Errno>, from: nat, to: nat, from': nat,
                         run: TreeRun)
    requires FileTree.Valid(s0) && src in s0 && from' <= from
    ensures RunAnswered(s0, src, faults, from, to, run) ==> RunAnswered(s0, src, faults, from', to, run)
  {
    if run.walkErr.Some? && Blamed(faults, WALK_CALLS, from, to, run.walkErr.value) {
      StillBlamed(faults, WALK_CALLS, from, to, run.walkErr.value, WALK_CALLS, from', to);
    }
    if run.chmodErr.Some? && Blamed(faults, {ChmodCall}, from, to, run.chmodErr.value) {
      StillBlamed(faults, {ChmodCall}, from, to, run.chmodErr.value, {ChmodCall}, from', to);
    }
  }

  /** With no unknown failure only an entry that cannot be cloned is left as a reason. */
  lemma QuietlyAnswered(s0: Tree, src: Path, faults: (Call, nat) -> Option<Errno>, from: nat, to: nat, run: TreeRun)
    requires FileTree.Valid(s0) && src in s0 && RunAnswered(s0, src, faults, from, to, run)
    requires forall c, t :: from <= t ==> faults(c, t).None?
    ensures run.chmodErr.None?
    ensures run.walkErr.Some? ==>
              && |run.done| < |Preorder(s0, src)|
              && FirstUnclonable(s0, src, EntryAt(s0, src, |run.done|)) && !AllClonable(s0, src)
              && run.walkErr == Rejection(s0[EntryAt(s0, src, |run.done|)])
  {
  }

  // A destination inside the source, and the walk stopping before it gets there

  /** The walk's base. */
  ghost function BaseOf(s0: Tree, src: Path, dst: Path): Tree {
    if src < dst then s0[dst := TEMPORARY] else s0
  }

  lemma BaseIsBase(s0: Tree, src: Path, dst: Path)
    requires FileTree.Valid(s0) && IsDirAt(s0, src) && CreateErrno(s0, dst).None? && ComesToAnEnd(s0, src, dst)
    ensures var base := BaseOf(s0, src, dst);
            && FileTree.Valid(base) && IsDirAt(base, src) && base[src] == s0[src] && IsBase(base, src, dst)
  {
    if src < dst {
      AddKeepsValid(s0, dst, TEMPORARY);
      var base := BaseOf(s0, src, dst);
      var p :| p in s0 && src <= p && !Clonable(s0[p]) && PathLess(p, dst);
      assert p in base && base[p] == s0[p];
      forall q | q in base && dst <= q ensures q == dst {
        NothingBelowAbsent(s0, dst, q);
      }
    } else {
      assert src <= dst ==> src == dst;
      DestinationIsApart(s0, src, dst);
    }
  }

  lemma {:induction false} SamePendingModes(s0: Tree, base: Tree, src: Path, dst: Path, done: seq<Path>)
    requires Copyable(s0, src, done) && Copyable(base, src, done) && forall p :: p in done ==> base[p] == s0[p]
    ensures PendingModes(base, src, dst, done) == PendingModes(s0, src, dst, done)
    decreases |done|
  {
    if done != [] {
      assert done[|done| - 1] in done;
      CopyablePrefix(s0, src, done, |done| - 1);
      CopyablePrefix(base, src, done, |done| - 1);
      SamePendingModes(s0, base, src, dst, done[..|done| - 1]);
    }
  }

  /** The walk of the base begins like that of the tree before the destination was made, for as long as it lasts. */
  lemma SameBeginning(s0: Tree, src: Path, dst: Path, done: seq<Path>)
    requires FileTree.Valid(s0) && IsDirAt(s0, src) && CreateErrno(s0, dst).None?
    requires src < dst && StopsBefore(s0, src, dst)
    requires src in BaseOf(s0, src, dst)
    requires Copyable(BaseOf(s0, src, dst), src, done) && done <= Preorder(BaseOf(s0, src, dst), src)
    ensures |done| < |Preorder(BaseOf(s0, src, dst), src)| && |done| < |Preorder(s0, src)| && done <= Preorder(s0, src)
    ensures Preorder(s0, src)[|done|] == Preorder(BaseOf(s0, src, dst), src)[|done|] != dst && dst !in done
  {
    BaseIsBase(s0, src, dst);
    var base := BaseOf(s0, src, dst);
    var a, b, n := Preorder(base, src), Preorder(s0, src), |done|;
    PreorderIsTheSortedSubtree(base, src);
    PreorderIsTheSortedSubtree(s0, src);
    PathLessIrreflexive(dst);
    forall i | 0 <= i < n + 1 ensures i < |a| && PathLess(a[i], dst) {
      NextIsBefore(base, src, dst, done, i);
    }
    SortedAgree(a, b, dst, n + 1);
    assert done == a[..n + 1][..n] == b[..n + 1][..n] == b[..n];
    assert a[n] == a[..n + 1][n] == b[..n + 1][n] == b[n];
    assert forall i | 0 <= i < n :: done[i] == a[i];
  }

  /** What the walk leaves, seen from before the destination was made. */
  lemma PrefixOfBase(s0: Tree, s: Tree, src: Path, dst: Path, done: seq<Path>, directories: seq<PendingMode>,
                     left: Option<Node>)
    requires FileTree.Valid(s0) && IsDirAt(s0, src) && CreateErrno(s0, dst).None?
    requires src < dst && StopsBefore(s0, src, dst)
    requires FileTree.Valid(BaseOf(s0, src, dst)) && src in BaseOf(s0, src, dst)
    requires Prefix(BaseOf(s0, src, dst), s, src, dst, done, directories, left)
    ensures Prefix(s0, s, src, dst, done, directories, left)
    ensures |done| < |Preorder(BaseOf(s0, src, dst), src)| && |done| < |Preorder(s0, src)|
    ensures EntryAt(s0, src, |done|) == EntryAt(BaseOf(s0, src, dst), src, |done|) != dst
  {
    var base := BaseOf(s0, src, dst);
    SameBeginning(s0, src, dst, done);
    SamePendingModes(s0, base, src, dst, done);
    assert done[0] == Preorder(base, src)[0] == src && done[0] in done;
    match left
    case None =>
      BuiltWithoutDestination(s0, s, src, dst, done);
    case Some(node) =>
      var t := Relocate(src, dst, EntryAt(s0, src, |done|));
      assert base[t := node] == s0[t := node][dst := TEMPORARY];
      BuiltWithoutDestination(s0[t := node], s, src, dst, done);
  }

  /** The destination's root need not count as there from the start: it is the copy of the source's. */
  lemma BuiltWithoutDestination(s0: Tree, s: Tree, src: Path, dst: Path, done: seq<Path>)
    requires src in s0 && s0[src].Dir? && dst !in s0 && src in done && dst !in done
    requires Copyable(s0[dst := TEMPORARY], src, done) && Built(s0[dst := TEMPORARY], s, src, dst, done, {})
    ensures Copyable(s0, src, done) && Built(s0, s, src, dst, done, {})
  {
    assert Origin(src, dst, dst) == src;
    forall q | q in s && q !in s0
        ensures dst <= q && Origin(src, dst, q) in done && s[q] == Fresh(s0[Origin(src, dst, q)]) {
      assert q == dst || q !in s0[dst := TEMPORARY];
    }
  }

  /**
   * ReflinkTree. The one thing about its arguments that the repository does not check is that a walk that gets started
   * comes to an end: that its destination is not inside its source, or that something that cannot be cloned comes
   * first.
   *
   * Every run, whatever fails: nothing at all happened, or `Leaves`. On success the destination is a clone. A failure
   * is answered for what the source or the destination is, for the first unclonable entry, or as an unknown failure of
   * one of the calls; so without one it succeeds exactly when the source is a tree of clonable nodes and the
   * destination can be created, and otherwise stops at the first unclonable entry with every mode restored.
   */
  method ReflinkTree(k: Kernel, srcRoot: Path, dstRoot: Path) returns (err: Option<Error>, ghost run: TreeRun)
    requires k.Valid() && NoLinkAbove(k.nodes, srcRoot) && NoLinkAbove(k.nodes, dstRoot)
    requires IsDirAt(k.nodes, srcRoot) && CreateErrno(k.nodes, dstRoot).None? ==>
               ComesToAnEnd(k.nodes, srcRoot, dstRoot)
    modifies k`nodes, k`mine, k`clock
    ensures k.Valid() && old(k.clock) <= k.clock
    ensures !run.started ==> err.Some? && k.nodes == old(k.nodes)
    ensures run.started ==>
              && IsDirAt(old(k.nodes), srcRoot) && CreateErrno(old(k.nodes), dstRoot).None?
              && Leaves(old(k.nodes), k.nodes, srcRoot, dstRoot, run)
              && JoinedAnswer(run.walkErr, run.chmodErr, err)
              && (run.chmodErr.None? <==> run.restoredFrom == 0)
              && (run.walkErr.None? ==> run.done == Preorder(old(k.nodes), srcRoot))
    ensures err.None? ==> run.started && IsTreeClone(old(k.nodes), k.nodes, srcRoot, dstRoot)
    ensures run.started && k.Never({RemoveCall, CloseCall}, old(k.clock)) ==> run.left.None?
    ensures run.started && k.Never({ChmodCall}, old(k.clock)) && LetsIn(old(k.nodes), old(k.mine)) ==>
              run.restoredFrom == 0
    ensures !run.started && LetsIn(old(k.nodes), old(k.mine)) ==>
              || Blamed(k.faults, {LstatCall, MkdirCall}, old(k.clock), k.clock, err.value)
              || Unstartable(old(k.nodes), srcRoot, dstRoot, err.value)
    ensures run.started && LetsIn(old(k.nodes), old(k.mine)) ==>
              RunAnswered(old(k.nodes), srcRoot, k.faults, old(k.clock), k.clock, run)
    ensures k.Quiet(old(k.clock)) && LetsIn(old(k.nodes), old(k.mine)) ==>
              && (run.started <==> IsDirAt(old(k.nodes), srcRoot) && CreateErrno(old(k.nodes), dstRoot).None?)
              && (err.None? <==> run.started && AllClonable(old(k.nodes), srcRoot))
  {
    run := TreeRun(false, [], None, 0, None, None);
    ghost var s0 := k.nodes;
    var srcInfo := k.Lstat(srcRoot);
    if srcInfo.Err? {
      err := Some(srcInfo.error);
      LookupBlamed(s0, k.mine, k.faults, old(k.clock), srcRoot);
      return;
    }
    if srcInfo.value.mode.kind != Directory {
      err := Some(NewError(EInval, "source must be a directory"));
      return;
    }
    ghost var letIn := LetsIn(k.nodes, k.mine);
    TemporaryModeSurvivesUmask(k.umask);
    var mkdirErr := k.Mkdir(dstRoot, TEMPORARY_DIRECTORY_MODE);
    if mkdirErr.Some? {
      err := mkdirErr;
      MakingBlamed(s0, old(k.mine), k.faults, old(k.clock) + 1, dstRoot, err.value, old(k.clock));
      return;
    }
    ghost var made := k.clock;
    err, run := FillTree(k, srcRoot, dstRoot, s0, letIn, srcInfo.value.mode);
    RunStillAnswered(s0, srcRoot, k.faults, made, k.clock, old(k.clock), run);
    if k.Quiet(old(k.clock)) && letIn {
      QuietlyAnswered(s0, srcRoot, k.faults, old(k.clock), k.clock, run);
    }
  }

  /** ReflinkTree once the destination's root is there: the walk, and whatever came of it, the restoring of modes. */
  method FillTree(k: Kernel, srcRoot: Path, dstRoot: Path, ghost s0: Tree, ghost letIn: bool, rootMode: FileMode)
    returns (err: Option<Error>, ghost run: TreeRun)
    requires k.Valid() && FileTree.Valid(s0) && IsDirAt(s0, srcRoot) && CreateErrno(s0, dstRoot).None?
    requires ComesToAnEnd(s0, srcRoot, dstRoot)
    requires k.nodes == s0[dstRoot := TEMPORARY] && rootMode == Info(s0[srcRoot]).mode
    requires letIn ==> LetsIn(k.nodes, k.mine)
    modifies k`nodes, k`mine, k`clock
    ensures k.Valid() && old(k.clock) <= k.clock && run.started && Leaves(s0, k.nodes, srcRoot, dstRoot, run)
    ensures JoinedAnswer(run.walkErr, run.chmodErr, err)
    ensures run.chmodErr.None? <==> run.restoredFrom == 0
    ensures run.walkErr.None? ==> run.done == Preorder(s0, srcRoot)
    ensures err.None? ==> IsTreeClone(s0, k.nodes, srcRoot, dstRoot) && AllClonable(s0, srcRoot)
    ensures k.Never({RemoveCall, CloseCall}, old(k.clock)) ==> run.left.None?
    ensures k.Never({ChmodCall}, old(k.clock)) && letIn ==> run.restoredFrom == 0
    ensures letIn ==> RunAnswered(s0, srcRoot, k.faults, old(k.clock), k.clock, run)
  {
    BaseIsBase(s0, srcRoot, dstRoot);
    var walkErr, directories;
    ghost var done, left;
    walkErr, directories, done, left := Walk(k, srcRoot, dstRoot, BaseOf(s0, srcRoot, dstRoot), letIn, rootMode);
    ghost var walked, between := k.nodes, k.clock;
    if srcRoot < dstRoot {
      PrefixOfBase(s0, walked, srcRoot, dstRoot, done, directories, left);
    }
    ReadyToRestore(s0, walked, srcRoot, dstRoot, done, directories, left);
    var chmodErr;
    ghost var from;
    chmodErr, from := RestoreDirectoryModes(k, directories);
    err := JoinErrors(walkErr, chmodErr);
    JoinErrorsAnswer(walkErr, chmodErr);

    run := TreeRun(true, done, left, from, walkErr, chmodErr);
    PrefixThenModes(s0, walked, k.nodes, srcRoot, dstRoot, run);
    if err.None? {
      CompletesIsClone(s0, k.nodes, srcRoot, dstRoot, run);
    }
    if letIn && walkErr.Some? {
      if Blamed(k.faults, WALK_CALLS, old(k.clock), between, walkErr.value) {
        StillBlamed(k.faults, WALK_CALLS, old(k.clock), between, walkErr.value, WALK_CALLS, old(k.clock), k.clock);
      } else {
        StopsAtFirstUnclonable(s0, srcRoot, done, walkErr);
      }
    }
    if letIn && chmodErr.Some? {
      StillBlamed(k.faults, {ChmodCall}, between, k.clock, chmodErr.value, {ChmodCall}, old(k.clock), k.clock);
    }
  }

  /** A destination that could be created below an existing directory is not above the source either. */
  lemma DestinationIsApart(s0: Tree, src: Path, dst: Path)
    requires FileTree.Valid(s0) && src in s0 && dst !in s0 && !(src <= dst)
    ensures Apart(src, dst)
  {
    if dst <= src {
      NothingBelowAbsent(s0, dst, src);
    }
  }

  lemma ReadyToRestore(s0: Tree, s: Tree, src: Path, dst: Path, done: seq<Path>, directories: seq<PendingMode>,
                       left: Option<Node>)
    requires FileTree.Valid(s0) && src in s0 && dst !in s0 && Prefix(s0, s, src, dst, done, directories, left)
    ensures StrictlySorted(PathsIn(directories))
    ensures forall d :: d in directories ==> IsDirAt(s, d.path)
  {
    PreorderIsTheSortedSubtree(s0, src);
    assert StrictlySorted(done) by {
      assert done == Preorder(s0, src)[..|done|];
    }
    PendingModesSorted(s0, src, dst, done);
    PendingModesMembers(s0, src, dst, done);
    forall d | d in directories ensures IsDirAt(s, d.path) {
      var o := Origin(src, dst, d.path);
      NothingBelowAbsent(s0, dst, d.path);
      assert d.path in s;
      if left.Some? {
        NextIsNotDone(s0, src, done);
        RelocateOrigin(src, dst, EntryAt(s0, src, |done|));
        assert s[d.path] == Fresh(s0[o]);
      }
    }
  }

  /**
   * What a run leaves, entry by entry: the entries copied are closed under parents; each copied file is finished; each
   * copied directory has its exact mode if its place in the creation order is in the restored suffix, and otherwise
   * still the temporary one; so with nothing left to restore, every copy is exact.
   */
  lemma LeavesMeaning(s0: Tree, s: Tree, src: Path, dst: Path, run: TreeRun, p: Path)
    requires FileTree.Valid(s0) && src in s0 && dst !in s0
    requires Leaves(s0, s, src, dst, run) && p in run.done
    ensures p != src ==> p != [] && Parent(p) in run.done
    ensures src <= p && p in s0 && Clonable(s0[p]) && Relocate(src, dst, p) in s
    ensures s0[p].File? ==> s[Relocate(src, dst, p)] == Finished(s0[p])
    ensures s0[p].Dir? ==>
              exists i | 0 <= i < |PendingModes(s0, src, dst, run.done)| ::
                && PendingModes(s0, src, dst, run.done)[i]
                     == PendingMode(Relocate(src, dst, p), ExactDirectoryMode(Info(s0[p]).mode))
                && s[Relocate(src, dst, p)] == if i >= run.restoredFrom then Finished(s0[p]) else TEMPORARY
    ensures run.restoredFrom == 0 ==> s[Relocate(src, dst, p)] == Finished(s0[p])
  {
    PreorderIsTheSortedSubtree(s0, src);
    if p != src {
      ParentIsCopied(s0, src, run.done, p);
    }
    RelocateOrigin(src, dst, p);
    var t := Relocate(src, dst, p);
    NothingBelowAbsent(s0, dst, t);
    CopyOfEntry(s0, s, src, dst, run, p);
    if s0[p].Dir? {
      PlaceInCreationOrder(s0, src, dst, run.done, run.restoredFrom, p);
    }
  }

  /** Before the mode is considered: what stands at the copy of an entry. */
  lemma CopyOfEntry(s0: Tree, s: Tree, src: Path, dst: Path, run: TreeRun, p: Path)
    requires FileTree.Valid(s0) && src in s0 && dst !in s0
    requires Leaves(s0, s, src, dst, run) && p in run.done
    ensures src <= p && p in s0 && Clonable(s0[p]) && Relocate(src, dst, p) in s
    ensures s[Relocate(src, dst, p)]
         == if Relocate(src, dst, p) in Restored(PendingModes(s0, src, dst, run.done), run.restoredFrom) then
             Finished(s0[p])
            else Fresh(s0[p])
  {
    var t := Relocate(src, dst, p);
    RelocateOrigin(src, dst, p);
    NothingBelowAbsent(s0, dst, t);
    if run.left.Some? {
      NextIsNotDone(s0, src, run.done);
      RelocateOrigin(src, dst, EntryAt(s0, src, |run.done|));
    }
  }

  lemma ParentIsCopied(s0: Tree, src: Path, done: seq<Path>, p: Path)
    requires FileTree.Valid(s0) && src in s0 && done <= Preorder(s0, src) && p in done && p != src
    ensures p != [] && Parent(p) in done
  {
    var all := Preorder(s0, src);
    PreorderIsTheSortedSubtree(s0, src);
    var i :| 0 <= i < |done| && done[i] == p;
    assert all[i] == p && p in all;
    assert src <= Parent(p) && Parent(p) < p;
    assert Parent(p) in all;
    var j :| 0 <= j < |all| && all[j] == Parent(p);
    AncestorIsEarlier(all, j, i);
    assert done[j] == Parent(p);
  }

  lemma PlaceInCreationOrder(s0: Tree, src: Path, dst: Path, done: seq<Path>, from: nat, p: Path)
    requires FileTree.Valid(s0) && src in s0 && done <= Preorder(s0, src) && Copyable(s0, src, done)
    requires from <= |PendingModes(s0, src, dst, done)|
    requires p in done && s0[p].Dir?
    ensures exists i | 0 <= i < |PendingModes(s0, src, dst, done)| ::
              && PendingModes(s0, src, dst, done)[i]
                   == PendingMode(Relocate(src, dst, p), ExactDirectoryMode(Info(s0[p]).mode))
              && (i >= from <==> Relocate(src, dst, p) in Restored(PendingModes(s0, src, dst, done), from))
  {
    var dirs := PendingModes(s0, src, dst, done);
    PreorderIsTheSortedSubtree(s0, src);
    PendingModesSorted(s0, src, dst, done);
    PendingModesMembers(s0, src, dst, done);
    var d := PendingMode(Relocate(src, dst, p), ExactDirectoryMode(Info(s0[p]).mode));
    assert d in dirs;
    var i :| 0 <= i < |dirs| && dirs[i] == d;
    if j :| from <= j < |dirs| && dirs[j].path == d.path && i < from {
      SortedIsDuplicateFree(PathsIn(dirs), i, j);
    }
  }
}
