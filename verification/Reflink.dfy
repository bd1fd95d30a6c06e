/**
 * FileReflinker (internal/service/service.go): clone one file into a name that did not exist, or leave nothing.
 */
module Reflinks {
  import opened Wrappers
  import opened Protocol
  import opened FileTree
  import opened Kernels
  import Paths

  function MapReflinkError(err: Error): Error {
    if Is(err, ErrReflinkUnsupported) || Is(err, ErrReflinkFailed) || Is(err, Sys(EOPNOTSUPP))
        || Is(err, Sys(EXDEV)) then
      WrapError(EOpNotSupp, "reflink is not supported for this source and destination", err)
    else err
  }

  /** The copy of a file: its content, the given permission bits and nothing above them, and a single name. */
  function CloneOf(source: Node, mode: FileMode): Node
    requires source.File?
  {
    File(source.content, PlainAttr(mode.attr.perm), 1)
  }

  /** The clone and the chmod succeed, when the first is made at time `t`. */
  predicate Fills(s: Tree, faults: (Call, nat) -> Option<Errno>, t: nat, src: Path) {
    CloneOutcome(s, faults(CloneCall, t), src).None? && faults(ChmodCall, t + 1).None?
  }

  /** Every call before the closing of the destination succeeds, when the first is made at time `t`. */
  predicate Completes(s: Tree, mine: set<Path>, faults: (Call, nat) -> Option<Errno>, t: nat, src: Path, dst: Path) {
    && LookupOutcome(s, mine, faults(OpenCall, t), src).None?
    && CreateOutcome(s, mine, faults(CreateCall, t + 1), dst).None?
    && Fills(s, faults, t + 2, src)
  }

  /** The error of the first call that fails, as the caller sees it, from the clone on. */
  function FillFailure(s: Tree, faults: (Call, nat) -> Option<Errno>, t: nat, src: Path, dst: Path): Option<Error> {
    var cloneErr := CloneOutcome(s, faults(CloneCall, t), src);
    if cloneErr.Some? then Some(MapReflinkError(PathError("ficlone", src, cloneErr.value)))
    else if faults(ChmodCall, t + 1).Some? then ToError("chmod", dst, faults(ChmodCall, t + 1))
    else ToError("close", dst, faults(CloseCall, t + 2))
  }

  /** The error of the first call that fails. */
  function FirstFailure(s: Tree, mine: set<Path>, faults: (Call, nat) -> Option<Errno>, t: nat, src: Path, dst: Path)
    : Option<Error>
  {
    var openErr := LookupOutcome(s, mine, faults(OpenCall, t), src);
    var createErr := CreateOutcome(s, mine, faults(CreateCall, t + 1), dst);
    if openErr.Some? then Some(PathError("open", src, openErr.value))
    else if createErr.Some? then Some(PathError("open", dst, createErr.value))
    else FillFailure(s, faults, t + 2, src, dst)
  }

  /** What a run made of the tree: nothing, or the destination with some file in it. */
  ghost predicate Made(s: Tree, s': Tree, dst: Path, left: Option<Node>) {
    match left
    case None => s' == s
    case Some(n) => CreateErrno(s, dst).None? && n.File? && s' == s[dst := n]
  }

  /**
   * All or nothing up to the last close. `left` is what a failing run leaves at the destination: nothing as long as
   * removing works, except the finished file when the only failure was closing it.
   */
  method Reflink(k: Kernel, srcPath: Path, dstPath: Path, mode: FileMode)
    returns (err: Option<Error>, ghost left: Option<Node>)
    requires k.Valid() && NoLinkAbove(k.nodes, srcPath) && NoLinkAbove(k.nodes, dstPath)
    requires srcPath in k.nodes ==> !k.nodes[srcPath].Symlink?
    modifies k`nodes, k`mine, k`clock
    ensures k.Valid() && k.mine == old(k.mine) && old(k.clock) < k.clock
    ensures err == FirstFailure(old(k.nodes), k.mine, k.faults, old(k.clock), srcPath, dstPath)
    ensures LookupOutcome(old(k.nodes), k.mine, k.faults(OpenCall, old(k.clock)), srcPath).None? ==>
              && old(k.clock) + 2 <= k.clock
              && (CreateOutcome(old(k.nodes), k.mine, k.faults(CreateCall, old(k.clock) + 1), dstPath).None? ==>
                    old(k.clock) + 5 <= k.clock)
    ensures Made(old(k.nodes), k.nodes, dstPath, left)
    ensures Completes(old(k.nodes), k.mine, k.faults, old(k.clock), srcPath, dstPath) ==>
              && srcPath in old(k.nodes) && old(k.nodes)[srcPath].File?
              && left == Some(CloneOf(old(k.nodes)[srcPath], mode))
    ensures !Completes(old(k.nodes), k.mine, k.faults, old(k.clock), srcPath, dstPath) ==>
              err.Some? && (k.Never({RemoveCall}, old(k.clock)) ==> left.None?)
  {
    left := None;
    var src := k.Open(srcPath);
    if src.Err? {
      return Some(src.error), None;
    }
    err, left := FillNew(k, src.value, dstPath, mode);
    var _ := k.Close(src.value);
  }

  /** The part of Reflink that runs with the source open. */
  method FillNew(k: Kernel, src: Handle, dstPath: Path, mode: FileMode)
    returns (err: Option<Error>, ghost left: Option<Node>)
    requires k.Valid() && NoLinkAbove(k.nodes, dstPath) && src.path in k.nodes
    modifies k`nodes, k`mine, k`clock
    ensures k.Valid() && k.mine == old(k.mine) && old(k.clock) < k.clock
    ensures Made(old(k.nodes), k.nodes, dstPath, left)
    ensures var createErr := CreateOutcome(old(k.nodes), k.mine, k.faults(CreateCall, old(k.clock)), dstPath);
            && (createErr.Some? ==> err == Some(PathError("open", dstPath, createErr.value)) && left.None?)
            && (createErr.None? ==>
                  && old(k.clock) + 4 <= k.clock
                  && err == FillFailure(old(k.nodes), k.faults, old(k.clock) + 1, src.path, dstPath)
                  && (Fills(old(k.nodes), k.faults, old(k.clock) + 1, src.path) ==>
                        && old(k.nodes)[src.path].File?
                        && left == Some(CloneOf(old(k.nodes)[src.path], mode)))
                  && (!Fills(old(k.nodes), k.faults, old(k.clock) + 1, src.path)
                      && k.Never({RemoveCall}, old(k.clock)) ==>
                        left.None?))
  {
    ghost var before := k.nodes;
    var dst := k.OpenExcl(dstPath, mode.attr.perm);
    if dst.Err? {
      return Some(dst.error), None;
    }
    assert CloneErrno(k.nodes, src.path) == CloneErrno(before, src.path);
    err, left := Fill(k, before, src, dst.value, mode);
  }

  /** The part of Reflink that runs with the new file open, its deferred closing and removal included. */
  method Fill(k: Kernel, ghost before: Tree, src: Handle, dst: Handle, mode: FileMode)
    returns (err: Option<Error>, ghost left: Option<Node>)
    requires k.Valid() && FileTree.Valid(before) && CreateOutcome(before, k.mine, None, dst.path).None?
    requires dst.path in k.nodes && k.nodes[dst.path].File? && k.nodes[dst.path].nlink == 1
    requires k.nodes == before[dst.path := k.nodes[dst.path]] && src.path in before
    modifies k`nodes, k`mine, k`clock
    ensures k.Valid() && k.mine == old(k.mine) && old(k.clock) < k.clock
    ensures old(k.clock) + 3 <= k.clock
    ensures err == FillFailure(before, k.faults, old(k.clock), src.path, dst.path)
    ensures Made(before, k.nodes, dst.path, left)
    ensures Fills(before, k.faults, old(k.clock), src.path) ==>
              before[src.path].File? && left == Some(CloneOf(before[src.path], mode))
    ensures !Fills(before, k.faults, old(k.clock), src.path) && k.Never({RemoveCall}, old(k.clock)) ==> left.None?
  {
    assert CloneErrno(k.nodes, src.path) == CloneErrno(before, src.path);
    var cleanup := true;
    var cloneErr := k.Clone(dst, src);
    if cloneErr.Some? {
      err := Some(MapReflinkError(cloneErr.value));
    } else {
      err := k.Fchmod(dst, Perm(mode));
      if err.None? {
        cleanup := false;
      }
    }
    assert k.nodes == before[dst.path := k.nodes[dst.path]];
    left := Some(k.nodes[dst.path]);

    var closeErr := k.Close(dst);
    if err.None? && closeErr.Some? {
      err := closeErr;
    }
    if cleanup {
      RemovableAgain(before, k.mine, dst.path, left.value);
      PresentHasNoLinkAbove(k.nodes, dst.path);
      var removeErr := k.Remove(dst.path);
      if removeErr.None? {
        left := None;
        assert k.nodes == before;
      }
    }
  }

  /** Whoever could create a file can take it away again. */
  lemma RemovableAgain(s: Tree, mine: set<Path>, p: Path, n: Node)
    requires FileTree.Valid(s) && n.File? && CreateOutcome(s, mine, None, p).None?
    ensures RemoveOutcome(s[p := n], mine, None, p).None?
  {
    forall i | 0 <= i < |p| ensures OwnerMay(s[p := n], mine, p[..i], OWNER_X) {
      assert OwnerMay(s, mine, p[..i], OWNER_X);
    }
  }

  const COPY_CALLS := {OpenCall, CreateCall, CloneCall, ChmodCall, CloseCall}

  /**
   * The unknown failure of the first of the five calls to have one: open, create, clone, chmod, close, in this order.
   */
  function CopyFault(faults: (Call, nat) -> Option<Errno>, t: nat): Option<Errno> {
    if faults(OpenCall, t).Some? then faults(OpenCall, t)
    else if faults(CreateCall, t + 1).Some? then faults(CreateCall, t + 1)
    else if faults(CloneCall, t + 2).Some? then faults(CloneCall, t + 2)
    else if faults(ChmodCall, t + 3).Some? then faults(ChmodCall, t + 3)
    else faults(CloseCall, t + 4)
  }

  /** Why a copy failed that was started on: the first of its five calls to fail for an unknown reason. */
  ghost predicate CopyAnswered(faults: (Call, nat) -> Option<Errno>, from: nat, to: nat, err: Error) {
    exists t :: from <= t < to && CopyFault(faults, t).Some? && Answers(err, CopyFault(faults, t).value)
  }

  /** Five calls in a row did not fail. */
  ghost predicate CopyWorked(faults: (Call, nat) -> Option<Errno>, from: nat, to: nat) {
    exists t :: from <= t < to && CopyFault(faults, t).None?
  }

  /** How many calls are made at least, up to the one that fails. */
  function CopySpan(faults: (Call, nat) -> Option<Errno>, t: nat): nat {
    if faults(OpenCall, t).Some? then 1 else if faults(CreateCall, t + 1).Some? then 2 else 5
  }

  /** A file that is there and a name that is free: the copy fails for no other reason, and is answered for that one. */
  lemma CopyFaultAnswers(s: Tree, mine: set<Path>, faults: (Call, nat) -> Option<Errno>, t: nat, src: Path, dst: Path)
    requires LookupOutcome(s, mine, None, src).None? && s[src].File? && CreateOutcome(s, mine, None, dst).None?
    ensures FirstFailure(s, mine, faults, t, src, dst).Some? <==> CopyFault(faults, t).Some?
    ensures FirstFailure(s, mine, faults, t, src, dst).Some? ==>
              && Answers(FirstFailure(s, mine, faults, t, src, dst).value, CopyFault(faults, t).value)
              && Blamed(faults, COPY_CALLS, t, t + CopySpan(faults, t),
                        FirstFailure(s, mine, faults, t, src, dst).value)
  {
    hide Protocol.MessageFromError;
    hide Protocol.CodeFromError;
    hide Kernels.PathError;
    if CopyFault(faults, t).Some? {
      var e := CopyFault(faults, t).value;
      assert FailedWith(faults, COPY_CALLS, t, t + CopySpan(faults, t), e);
      ErrorAnswers("open", src, e);
      ErrorAnswers("open", dst, e);
      ErrorAnswers("chmod", dst, e);
      ErrorAnswers("close", dst, e);
      CloneErrorAnswers(src, e);
    }
  }

  lemma ErrorAnswers(op: string, p: Path, e: Errno)
    ensures Answers(PathError(op, p, e), e)
  {
    LeafAnswer(e, op + " " + Paths.Render(true, p) + ": " + ErrnoText(e));
  }

  /** How the protocol sorts the error of a failing clone. */
  lemma ClassOfClone(err: Error, e: Errno)
    requires err.Leaf? && err.cause == Sys(e)
    ensures MapReflinkError(err) == if e == EOPNOTSUPP || e == EXDEV then
                                      WrapError(EOpNotSupp, "reflink is not supported for this source and destination",
                                          err)
                                    else err
    ensures CodeFromError(err) == EOpNotSupp <==> e == EOPNOTSUPP || e == EXDEV
  {
    UnsupportedTargets(err);
    CodeIsStrongestCause(err);
    RankOfLeaf(err, e);
  }

  lemma RankOfLeaf(err: Error, e: Errno)
    requires err.Leaf? && err.cause == Sys(e)
    ensures Strongest(Causes(err)) == CauseRank(Sys(e))
    ensures HasRank(Causes(err), 3) <==> e == EOPNOTSUPP || e == EXDEV
  {
    assert Causes(err) == [Sys(e)] && [Sys(e)][1..] == [];
  }

  /** A clone that is not supported is answered so, whichever of the two error numbers says it. */
  lemma CloneErrorAnswers(p: Path, e: Errno)
    ensures Answers(MapReflinkError(PathError("ficlone", p, e)), e)
    ensures e == EOPNOTSUPP || e == EXDEV ==>
              ResponseFromError(Some(MapReflinkError(PathError("ficlone", p, e))))
              == FailureResponse(EOpNotSupp, "reflink is not supported for this source and destination")
  {
    hide Protocol.MessageFromError;
    hide Protocol.CodeFromError;
    hide MapReflinkError;
    ErrorAnswers("ficlone", p, e);
    ClassOfClone(PathError("ficlone", p, e), e);
  }

  /** Success and completion: the run succeeds exactly when it completes and the last close works. */
  lemma SuccessIsCompletion(s: Tree, mine: set<Path>, faults: (Call, nat) -> Option<Errno>, t: nat, src: Path,
                            dst: Path)
    ensures FirstFailure(s, mine, faults, t, src, dst).None? <==>
              Completes(s, mine, faults, t, src, dst) && faults(CloseCall, t + 4).None?
  {
  }
}
