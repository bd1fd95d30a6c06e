/**
 * ValidateShareRoot (internal/service/service.go): try a reflink between two temporary files in the share, and leave
 * the share as it was.
 */
module StartupProbe {
  import opened Wrappers
  import opened Protocol
  import opened Validate
  import opened FileTree
  import opened Kernels
  import opened Reflinks
  import opened Resolve

  const SRC_PREFIX := ".vreflinkd-startup-probe-src-"
  const DST_PREFIX := ".vreflinkd-startup-probe-dst-"
  const PROBE_ATTEMPTS := 10000

  /** No name with this prefix that can be drawn is taken. */
  ghost predicate AllFree(s: Tree, dir: Path, prefix: string, random: nat -> string) {
    forall t :: dir + [prefix + random(t)] !in s
  }

  /** `os.CreateTemp`: names are drawn until one is free, at most ten thousand times. */
  method CreateTemp(k: Kernel, dir: Path, prefix: string, random: nat -> string) returns (r: Result<Handle, Error>)
    requires k.Valid() && IsDirAt(k.nodes, dir)
    modifies k`nodes, k`clock
    ensures k.Valid() && old(k.clock) <= k.clock
    ensures r.Ok? ==>
              var p := r.value.path;
              && p != [] && Parent(p) == dir && CreateErrno(old(k.nodes), p).None?
              && p in k.nodes && k.nodes[p].File? && k.nodes == old(k.nodes)[p := k.nodes[p]]
              && CreateOutcome(old(k.nodes), k.mine, None, p).None? && prefix <= FileTree.Leaf(p)
    ensures r.Err? ==> k.nodes == old(k.nodes)
    ensures r.Err? && k.mine == {} ==>
              Blamed(k.faults, {CreateCall}, old(k.clock), k.clock, r.error) || !AllFree(k.nodes, dir, prefix, random)
  {
    var try := 0;
    while try < PROBE_ATTEMPTS
      invariant k.Valid() && old(k.clock) <= k.clock && k.nodes == old(k.nodes)
      invariant try > 0 ==> !AllFree(k.nodes, dir, prefix, random)
    {
      ghost var t := k.clock;
      var p := dir + [prefix + random(k.clock)];
      assert Parent(p) == dir;
      PresentHasNoLinkAbove(k.nodes, p);
      r := k.OpenExcl(p, 0x180);
      if r.Err? && k.faults(CreateCall, t).Some? {
        FailureIsBlamed(k.faults, CreateCall, t, old(k.clock), k.clock, {CreateCall}, "open", p);
      }
      if r.Ok? || !Is(r.error, ErrExist) {
        return;
      }
      try := try + 1;
    }
    r := Err(Protocol.Leaf(ErrExist, "createtemp: file exists"));
  }

  /** The share while the probe runs: as before, plus the source file, plus perhaps something at the second name. */
  ghost predicate Probing(s0: Tree, s: Tree, src: Path, dst: Option<Path>) {
    && src !in s0 && src in s && s[src].File?
    && (dst.Some? ==> dst.value !in s0 && dst.value != src && (dst.value in s ==> s[dst.value].File?))
    && (forall q :: q != src && dst != Some(q) ==> (q in s <==> q in s0) && (q in s0 ==> s[q] == s0[q]))
  }

  lemma ProbingAdds(s0: Tree, s: Tree, src: Path, dst: Path, n: Node)
    requires Probing(s0, s, src, None) && dst !in s && n.File?
    ensures Probing(s0, s[dst := n], src, Some(dst))
  {
  }

  lemma ProbingLoses(s0: Tree, s: Tree, src: Path, dst: Path)
    requires Probing(s0, s, src, Some(dst))
    ensures Probing(s0, s - {dst}, src, Some(dst))
  {
  }

  /** The error is `what` with a call that failed for an unknown reason. */
  ghost predicate Says(err: Error, what: string, faults: (Call, nat) -> Option<Errno>, calls: set<Call>, from: nat,
                       to: nat)
  {
    err.Wrapped? && err.prefix == what && err.suffix == "" && Blamed(faults, calls, from, to, err.inner)
  }

  lemma StillSays(err: Error, what: string, faults: (Call, nat) -> Option<Errno>, calls: set<Call>, from: nat, to: nat,
                  calls': set<Call>, from': nat, to': nat)
    requires Says(err, what, faults, calls, from, to) && calls <= calls' && from' <= from && to <= to'
    ensures Says(err, what, faults, calls', from', to')
  {
    StillBlamed(faults, calls, from, to, err.inner, calls', from', to');
  }

  /** The file that reserves the second name is closed and removed. */
  method FreeName(k: Kernel, file: Handle, src: Path, ghost s0: Tree) returns (err: Option<Error>)
    requires k.Valid() && k.mine == {} && Probing(s0, k.nodes, src, Some(file.path))
    requires file.path in k.nodes && file.path != []
    modifies k`nodes, k`mine, k`clock
    ensures k.Valid() && old(k.clock) <= k.clock && k.mine == {}
    ensures Probing(s0, k.nodes, src, Some(file.path))
    ensures err.None? ==> file.path !in k.nodes
    ensures err.Some? ==>
              Says(err.value, "prepare share root probe: ", k.faults, {CloseCall, RemoveCall}, old(k.clock), k.clock)
  {
    ghost var start := k.clock;
    var closeErr := k.Close(file);
    if closeErr.Some? {
      FailureIsBlamed(k.faults, CloseCall, start, start, k.clock, {CloseCall, RemoveCall}, "close", file.path);
      return Some(Preparing(closeErr.value));
    }
    CanRemove(k.nodes, file.path);
    ProbingLoses(s0, k.nodes, src, file.path);
    var removeErr := k.Remove(file.path);
    if removeErr.Some? {
      FailureIsBlamed(k.faults, RemoveCall, start + 1, start, k.clock, {CloseCall, RemoveCall}, "remove", file.path);
      return Some(Preparing(removeErr.value));
    }
    err := None;
  }

  /** The second name is drawn, created, closed and freed again. */
  method ReserveName(k: Kernel, rootPath: Path, src: Path, random: nat -> string, ghost s0: Tree)
    returns (err: Option<Error>, dst: Option<Path>)
    requires k.Valid() && FileTree.Valid(s0) && IsDirAt(s0, rootPath) && Probing(s0, k.nodes, src, None)
    requires k.mine == {} && rootPath != src
    modifies k`nodes, k`mine, k`clock
    ensures k.Valid() && old(k.clock) <= k.clock && k.mine == {}
    ensures Probing(s0, k.nodes, src, dst)
    ensures dst.Some? ==> dst.value != [] && Parent(dst.value) == rootPath
    ensures err.None? ==> dst.Some? && dst.value !in k.nodes
    ensures err.Some? ==>
              || Says(err.value, "share root is not writable: ", k.faults, {CreateCall}, old(k.clock), k.clock)
              || Says(err.value, "prepare share root probe: ", k.faults, {CloseCall, RemoveCall}, old(k.clock), k.clock)
              || !AllFree(old(k.nodes), rootPath, DST_PREFIX, random)
  {
    dst := None;
    var dstFile := CreateTemp(k, rootPath, DST_PREFIX, random);
    if dstFile.Err? {
      err := Some(Wrapped("share root is not writable: ", dstFile.error, ""));
      return;
    }
    var dstPath := dstFile.value.path;
    dst := Some(dstPath);
    ProbingAdds(s0, old(k.nodes), src, dstPath, k.nodes[dstPath]);
    ghost var made := k.clock;
    err := FreeName(k, dstFile.value, src, s0);
    if err.Some? {
      StillSays(err.value, "prepare share root probe: ", k.faults, {CloseCall, RemoveCall}, made, k.clock,
                {CloseCall, RemoveCall}, old(k.clock), k.clock);
    }
  }

  /** What the probe is given to reflink with: the service's own, or another, of which only what it does is known. */
  datatype Reflinker = Own | Another(err: Option<Error>, made: Option<Content>)

  /** Another reflinker touches nothing but its destination, and leaves a file there or nothing. */
  method AnyReflink(k: Kernel, reflinker: Reflinker, src: Path, dst: Path, ghost s0: Tree) returns (err: Option<Error>)
    requires k.Valid() && k.mine == {} && Probing(s0, k.nodes, src, Some(dst))
    requires src != [] && dst != [] && Parent(src) == Parent(dst) && dst !in k.nodes
    modifies k`nodes, k`mine, k`clock
    ensures k.Valid() && old(k.clock) <= k.clock && k.mine == {}
    ensures reflinker.Own? ==> old(k.clock) < k.clock
    ensures Probing(s0, k.nodes, src, Some(dst))
    ensures reflinker.Another? ==> err == reflinker.err
    ensures reflinker.Own? && err.None? ==> dst in k.nodes && k.nodes[dst].content == k.nodes[src].content
    ensures reflinker.Own? ==>
              && (err.None? <==> CopyFault(k.faults, old(k.clock)).None?)
              && (err.Some? ==>
                    var e := CopyFault(k.faults, old(k.clock)).value;
                    && Answers(err.value, e) && FailedWith(k.faults, COPY_CALLS, old(k.clock), k.clock, e)
                    && (SaysUnsupported(err.value) <==> ErrnoCode(e) == EOpNotSupp))
  {
    hide Protocol.Answers;
    hide SaysUnsupported;
    hide FirstFailure;
    match reflinker
    case Own =>
      PresentHasNoLinkAbove(k.nodes, src);
      BesidePresent(k.nodes, src, dst);
      CopyBeside(k.nodes, k.faults, k.clock, src, dst);
      ghost var left;
      err, left := Reflink(k, src, dst, FileMode(Regular, PlainAttr(0x180)));
    case Another(result, made) =>
      err := result;
      if made.Some? {
        AddKeepsValid(k.nodes, dst, File(made.value, PlainAttr(0x180), 1));
        k.nodes := k.nodes[dst := File(made.value, PlainAttr(0x180), 1)];
      }
  }

  const PREPARING_CALLS := {WriteCall, CloseCall, RemoveCall}

  /** The reflinker was tried and succeeded. */
  ghost predicate ProbeWorked(faults: (Call, nat) -> Option<Errno>, from: nat, to: nat, reflinker: Reflinker) {
    match reflinker
    case Own => CopyWorked(faults, from, to)
    case Another(err, _) => err.None?
  }

  /**
   * Why the probe failed: a file could not be made, or the probe not be prepared, because a call failed; or the
   * reflinker failed, and then the share is said not to support reflinks exactly if that is answered EOPNOTSUPP.
   */
  ghost predicate ProbeFailed(faults: (Call, nat) -> Option<Errno>, from: nat, to: nat, reflinker: Reflinker,
                              err: Error)
  {
    || Says(err, "share root is not writable: ", faults, {CreateCall}, from, to)
    || Says(err, "prepare share root probe: ", faults, PREPARING_CALLS, from, to)
    || match reflinker
       case Own => exists e :: FailedWith(faults, COPY_CALLS, from, to, e) && SaysOfReflink(err, e)
       case Another(result, _) =>
         && result.Some? && err.Wrapped? && err.inner == result.value && err.suffix == ""
         && err.prefix ==
              if ResponseFromError(result).error.value.code == EOpNotSupp
                  || CodeFromError(result.value) == EOpNotSupp then
                "share root does not support reflink: "
              else "share root failed reflink probe: "
  }

  ghost predicate SaysOfReflink(err: Error, e: Errno) {
    && err.Wrapped? && err.suffix == "" && Answers(err.inner, e)
    && err.prefix == if e == EOPNOTSUPP || e == EXDEV then "share root does not support reflink: "
                     else "share root failed reflink probe: "
  }

  lemma ReservingFailed(faults: (Call, nat) -> Option<Errno>, from: nat, to: nat, from': nat, reflinker: Reflinker,
                        err: Error)
    requires from' <= from
    ensures Says(err, "share root is not writable: ", faults, {CreateCall}, from, to)
            || Says(err, "prepare share root probe: ", faults, {CloseCall, RemoveCall}, from, to) ==>
              ProbeFailed(faults, from', to, reflinker, err)
  {
    if Says(err, "share root is not writable: ", faults, {CreateCall}, from, to) {
      StillSays(err, "share root is not writable: ", faults, {CreateCall}, from, to, {CreateCall}, from', to);
    } else if Says(err, "prepare share root probe: ", faults, {CloseCall, RemoveCall}, from, to) {
      StillSays(err, "prepare share root probe: ", faults, {CloseCall, RemoveCall}, from, to, PREPARING_CALLS,
                from', to);
    }
  }

  lemma VerdictFailed(faults: (Call, nat) -> Option<Errno>, from: nat, to: nat, from': nat, reflinker: Reflinker,
                      err: Option<Error>)
    requires from' <= from < to || (reflinker.Another? && from' <= from <= to)
    requires match reflinker
             case Own =>
               && (err.None? <==> CopyFault(faults, from).None?)
               && (err.Some? ==>
                     var e := CopyFault(faults, from).value;
                     && Answers(err.value, e) && FailedWith(faults, COPY_CALLS, from, to, e)
                     && (SaysUnsupported(err.value) <==> ErrnoCode(e) == EOpNotSupp))
             case Another(result, _) => err == result
    ensures err.None? ==> ProbeWorked(faults, from', to, reflinker)
    ensures err.Some? ==> ProbeFailed(faults, from', to, reflinker, ProbeVerdict(err).value)
  {
    if reflinker.Own? {
      if err.None? {
        assert CopyFault(faults, from).None?;
      } else {
        var e := CopyFault(faults, from).value;
        var c, t :| c in COPY_CALLS && from <= t < to && faults(c, t) == Some(e);
        assert FailedWith(faults, COPY_CALLS, from', to, e);
        assert SaysOfReflink(ProbeVerdict(err).value, e);
      }
    }
  }

  /** The source file is written and closed. */
  method Prepare(k: Kernel, src: Handle, ghost s0: Tree) returns (err: Option<Error>, srcOpen: bool)
    requires k.Valid() && Probing(s0, k.nodes, src.path, None) && src.path != []
    modifies k`nodes, k`clock
    ensures k.Valid() && old(k.clock) <= k.clock
    ensures Probing(s0, k.nodes, src.path, None) && k.nodes.Keys == old(k.nodes.Keys)
    ensures err.Some? ==>
              Says(err.value, "prepare share root probe: ", k.faults, PREPARING_CALLS, old(k.clock), k.clock)
  {
    ghost var start := k.clock;
    srcOpen := true;
    var writeErr := k.Write(src, [0x70, 0x72, 0x6F, 0x62, 0x65]);
    if writeErr.Some? {
      FailureIsBlamed(k.faults, WriteCall, start, start, k.clock, PREPARING_CALLS, "write", src.path);
      return Some(Preparing(writeErr.value)), true;
    }
    var closeErr := k.Close(src);
    if closeErr.Some? {
      FailureIsBlamed(k.faults, CloseCall, start + 1, start, k.clock, PREPARING_CALLS, "close", src.path);
      return Some(Preparing(closeErr.value)), true;
    }
    return None, false;
  }

  /** From the writing of the source file to the reflink; `srcOpen` and `dst` are what the deferred cleanup looks at. */
  method Probe(k: Kernel, reflinker: Reflinker, rootPath: Path, src: Handle, random: nat -> string, ghost s0: Tree)
    returns (err: Option<Error>, srcOpen: bool, dst: Option<Path>)
    requires k.Valid() && FileTree.Valid(s0) && IsDirAt(s0, rootPath) && Probing(s0, k.nodes, src.path, None)
    requires k.mine == {} && src.path != [] && Parent(src.path) == rootPath && rootPath != src.path
    modifies k`nodes, k`mine, k`clock
    ensures k.Valid() && old(k.clock) <= k.clock && k.mine == {}
    ensures Probing(s0, k.nodes, src.path, dst)
    ensures dst.Some? ==> dst.value != [] && Parent(dst.value) == rootPath
    ensures reflinker.Own? && err.None? ==>
              dst.Some? && dst.value in k.nodes && k.nodes[dst.value].content == k.nodes[src.path].content
    ensures err.None? ==> ProbeWorked(k.faults, old(k.clock), k.clock, reflinker)
    ensures err.Some? && AllFree(old(k.nodes), rootPath, DST_PREFIX, random) ==>
              ProbeFailed(k.faults, old(k.clock), k.clock, reflinker, err.value)
  {
    ghost var start := k.clock;
    dst := None;
    err, srcOpen := Prepare(k, src, s0);
    if err.Some? {
      StillSays(err.value, "prepare share root probe: ", k.faults, PREPARING_CALLS, start, k.clock, PREPARING_CALLS,
                start, k.clock);
      return;
    }
    ghost var closed := k.clock;
    err, dst := ReserveName(k, rootPath, src.path, random, s0);
    if err.Some? {
      ReservingFailed(k.faults, closed, k.clock, start, reflinker, err.value);
      return;
    }
    ghost var reserved := k.clock;
    var reflinkErr := AnyReflink(k, reflinker, src.path, dst.value, s0);
    err := ProbeVerdict(reflinkErr);
    VerdictFailed(k.faults, reserved, k.clock, start, reflinker, reflinkErr);
  }

  lemma VerdictOnPath(op: string, p: Path, e: Errno)
    ensures SaysUnsupported(MapReflinkError(PathError(op, p, e))) <==> ErrnoCode(e) == EOpNotSupp
    ensures SaysUnsupported(PathError(op, p, e)) <==> ErrnoCode(e) == EOpNotSupp
  {
    hide MapReflinkError;
    hide SaysUnsupported;
    VerdictOnLeaf(PathError(op, p, e), e);
  }

  /** A file can be reflinked to a free name next to it, unless a call fails for an unknown reason. */
  lemma CopyBeside(s: Tree, faults: (Call, nat) -> Option<Errno>, t: nat, src: Path, dst: Path)
    requires FileTree.Valid(s) && src in s && s[src].File? && src != [] && dst != [] && Parent(src) == Parent(dst)
    requires dst !in s
    ensures var err := FirstFailure(s, {}, faults, t, src, dst);
            && (err.None? <==> CopyFault(faults, t).None?)
            && (err.None? ==> Completes(s, {}, faults, t, src, dst))
            && (err.Some? ==>
                  var e := CopyFault(faults, t).value;
                  && Answers(err.value, e) && FailedWith(faults, COPY_CALLS, t, t + CopySpan(faults, t), e)
                  && (SaysUnsupported(err.value) <==> ErrnoCode(e) == EOpNotSupp))
  {
    hide Protocol.MessageFromError;
    hide Protocol.CodeFromError;
    hide PathError;
    hide MapReflinkError;
    hide SaysUnsupported;
    CopyFaultAnswers(s, {}, faults, t, src, dst);
    SuccessIsCompletion(s, {}, faults, t, src, dst);
    if CopyFault(faults, t).Some? {
      var e, err := CopyFault(faults, t).value, FirstFailure(s, {}, faults, t, src, dst).value;
      assert FailedWith(faults, COPY_CALLS, t, t + CopySpan(faults, t), e);
      VerdictOnPath("open", src, e);
      VerdictOnPath("open", dst, e);
      VerdictOnPath("ficlone", src, e);
      VerdictOnPath("chmod", dst, e);
      VerdictOnPath("close", dst, e);
    }
  }

  /** A name next to one that is there has no link above it. */
  lemma BesidePresent(s: Tree, src: Path, dst: Path)
    requires FileTree.Valid(s) && src in s && src != [] && dst != [] && Parent(src) == Parent(dst)
    ensures NoLinkAbove(s, dst)
  {
    PresentHasNoLinkAbove(s, src);
    forall i | 0 <= i < |dst| ensures dst[..i] == src[..i] {
      assert dst[..i] == Parent(dst)[..i];
    }
  }

  /** What is done in a share root that is a directory. */
  method ProbeDirectory(k: Kernel, reflinker: Reflinker, rootPath: Path, random: nat -> string)
    returns (err: Option<Error>)
    requires k.Valid() && k.mine == {} && IsDirAt(k.nodes, rootPath)
    modifies k`nodes, k`mine, k`clock
    ensures k.Valid() && old(k.clock) <= k.clock
    ensures k.Never({RemoveCall}, old(k.clock)) ==> k.nodes == old(k.nodes)
    ensures err.None? ==> ProbeWorked(k.faults, old(k.clock), k.clock, reflinker)
    ensures err.Some? && AllFree(old(k.nodes), rootPath, SRC_PREFIX, random)
            && AllFree(old(k.nodes), rootPath, DST_PREFIX, random) ==>
              ProbeFailed(k.faults, old(k.clock), k.clock, reflinker, err.value)
  {
    ghost var s0 := k.nodes;
    var srcFile := CreateTemp(k, rootPath, SRC_PREFIX, random);
    if srcFile.Err? {
      err := Some(Wrapped("share root is not writable: ", srcFile.error, ""));
      ReservingFailed(k.faults, old(k.clock), k.clock, old(k.clock), reflinker, err.value);
      return;
    }

    var src := srcFile.value;
    StillFree(s0, k.nodes, rootPath, src.path, random);
    var srcOpen, dst;
    ghost var made := k.clock;
    err, srcOpen, dst := Probe(k, reflinker, rootPath, src, random, s0);
    ghost var probed := k.clock;
    CleanUp(k, src, srcOpen, dst, s0);
    ProbeStill(k.faults, made, probed, old(k.clock), k.clock, reflinker, err);
  }

  /**
   * Whatever fails on the way, the share ends up as it was, provided removing works. With no call failing and names to
   * be had, the verdict is favourable exactly if the root is a directory and the reflinker succeeds, which the
   * service's own then does. The root is taken to be named by a path without a symbolic link at its end.
   */
  method ValidateShareRoot(k: Kernel, reflinker: Reflinker, processDir: string, root: string, random: nat -> string)
    returns (err: Option<Error>)
    requires k.Valid() && k.mine == {} && Paths.IsAbs(processDir)
    requires NoLinkAbove(k.nodes, RootPath(processDir, root))
    requires RootPath(processDir, root) in k.nodes ==> !k.nodes[RootPath(processDir, root)].Symlink?
    modifies k`nodes, k`mine, k`clock
    ensures k.Valid() && old(k.clock) <= k.clock
    ensures k.Never({RemoveCall}, old(k.clock)) ==> k.nodes == old(k.nodes)
    ensures err.None? ==>
              && root != "" && IsDirAt(old(k.nodes), RootPath(processDir, root))
              && ProbeWorked(k.faults, old(k.clock), k.clock, reflinker)
    ensures err.Some? && IsDirAt(old(k.nodes), RootPath(processDir, root)) && root != ""
            && AllFree(old(k.nodes), RootPath(processDir, root), SRC_PREFIX, random)
            && AllFree(old(k.nodes), RootPath(processDir, root), DST_PREFIX, random) ==>
              || Says(err.value, "stat share root: ", k.faults, {LstatCall}, old(k.clock), k.clock)
              || ProbeFailed(k.faults, old(k.clock), k.clock, reflinker, err.value)
    ensures root == "" ==> err.Some? && Text(err.value) == "share root is required"
    ensures root != "" && !IsDirAt(old(k.nodes), RootPath(processDir, root)) ==>
              && err.Some?
              && (|| Says(err.value, "stat share root: ", k.faults, {LstatCall}, old(k.clock), k.clock)
                  || (if RootPath(processDir, root) in old(k.nodes) then
                        Text(err.value) == "share root must be a directory"
                      else if Missing(old(k.nodes), RootPath(processDir, root)) == ENOENT then
                        Text(err.value) == "share root does not exist"
                      else err.value.Wrapped? && err.value.prefix == "stat share root: "))
    ensures k.Quiet(old(k.clock))
            && AllFree(old(k.nodes), RootPath(processDir, root), SRC_PREFIX, random)
            && AllFree(old(k.nodes), RootPath(processDir, root), DST_PREFIX, random) ==>
              (err.None? <==>
                 && root != "" && IsDirAt(old(k.nodes), RootPath(processDir, root))
                 && (reflinker.Own? || reflinker.err.None?))
  {
    var rootText := NormalizeRoot(processDir, root);
    if rootText.Err? {
      return Some(rootText.error);
    }
    var rootPath := Paths.Components(rootText.value);
    var info := k.Lstat(rootPath);
    if info.Err? {
      if k.faults(LstatCall, old(k.clock)).Some? {
        FailureIsBlamed(k.faults, LstatCall, old(k.clock), old(k.clock), k.clock, {LstatCall}, "lstat", rootPath);
      }
      return Some(if OsIsNotExist(info.error) then Protocol.Leaf(Opaque, "share root does not exist")
                  else Wrapped("stat share root: ", info.error, ""));
    }
    if info.value.mode.kind != Directory {
      return Some(Protocol.Leaf(Opaque, "share root must be a directory"));
    }
    ghost var seen := k.clock;
    err := ProbeDirectory(k, reflinker, rootPath, random);
    ProbeStill(k.faults, seen, k.clock, old(k.clock), k.clock, reflinker, err);
  }

  lemma ProbeStill(faults: (Call, nat) -> Option<Errno>, from: nat, to: nat, from': nat, to': nat, reflinker: Reflinker,
                   err: Option<Error>)
    requires from' <= from && to <= to'
    ensures ProbeWorked(faults, from, to, reflinker) ==> ProbeWorked(faults, from', to', reflinker)
    ensures err.Some? && ProbeFailed(faults, from, to, reflinker, err.value) ==>
              ProbeFailed(faults, from', to', reflinker, err.value)
  {
    if reflinker.Own? && CopyWorked(faults, from, to) {
      var t :| from <= t < to && CopyFault(faults, t).None?;
    }
    if err.Some? && ProbeFailed(faults, from, to, reflinker, err.value) {
      if Says(err.value, "share root is not writable: ", faults, {CreateCall}, from, to) {
        StillSays(err.value, "share root is not writable: ", faults, {CreateCall}, from, to, {CreateCall}, from', to');
      } else if Says(err.value, "prepare share root probe: ", faults, PREPARING_CALLS, from, to) {
        StillSays(err.value, "prepare share root probe: ", faults, PREPARING_CALLS, from, to, PREPARING_CALLS,
                  from', to');
      } else if reflinker.Own? {
        var e :| FailedWith(faults, COPY_CALLS, from, to, e) && SaysOfReflink(err.value, e);
        var c, t :| c in COPY_CALLS && from <= t < to && faults(c, t) == Some(e);
        assert FailedWith(faults, COPY_CALLS, from', to', e);
      }
    }
  }

  /** Closed files in a share can be removed. */
  lemma CanRemove(s: Tree, p: Path)
    requires FileTree.Valid(s) && p in s && s[p].File? && p != []
    ensures RemoveOutcome(s, {}, None, p).None? && NoLinkAbove(s, p)
  {
    PresentHasNoLinkAbove(s, p);
  }

  lemma BothGone(s0: Tree, s: Tree, src: Path, dst: Path)
    requires Probing(s0, s, src, Some(dst))
    ensures s - {src} - {dst} == s0
  {
  }

  lemma SourceGone(s0: Tree, s: Tree, src: Path, dst: Option<Path>)
    requires Probing(s0, s, src, dst) && (dst.Some? ==> dst.value !in s)
    ensures s - {src} == s0
  {
  }

  /** The deferred function: close the source if it is open, then remove both files. */
  method CleanUp(k: Kernel, src: Handle, srcOpen: bool, dst: Option<Path>, ghost s0: Tree)
    requires k.Valid() && FileTree.Valid(s0) && k.mine == {}
    requires Probing(s0, k.nodes, src.path, dst) && src.path != []
    requires dst.Some? ==> dst.value != [] && Parent(dst.value) == Parent(src.path)
    modifies k`nodes, k`mine, k`clock
    ensures k.Valid() && old(k.clock) <= k.clock
    ensures k.Never({RemoveCall}, old(k.clock)) ==> k.nodes == s0
  {
    if srcOpen {
      var _ := k.Close(src);
    }
    ghost var before := k.nodes;
    CanRemove(k.nodes, src.path);
    var _ := k.Remove(src.path);
    if dst.Some? {
      RemoveSecond(k, before, src.path, dst.value);
      BothGone(s0, before, src.path, dst.value);
    }
    if dst.None? || dst.value !in before {
      SourceGone(s0, before, src.path, dst);
    }
  }

  /** The second removal; removing a file that was never made does nothing. */
  method RemoveSecond(k: Kernel, ghost before: Tree, src: Path, dst: Path)
    requires k.Valid() && k.mine == {} && FileTree.Valid(before)
    requires src in before && before[src].File? && src != [] && dst != [] && dst != src && Parent(dst) == Parent(src)
    requires dst in before ==> before[dst].File?
    requires k.nodes == before || k.nodes == before - {src}
    modifies k`nodes, k`mine, k`clock
    ensures k.Valid() && old(k.clock) <= k.clock
    ensures k.Never({RemoveCall}, old(k.clock)) ==> k.nodes == old(k.nodes) - {dst}
  {
    BesidePresent(before, src, dst);
    assert NoLinkAbove(k.nodes, dst);
    if dst in k.nodes {
      CanRemove(k.nodes, dst);
    }
    var _ := k.Remove(dst);
  }

  /** The first temporary file does not take a name of the second. */
  lemma StillFree(s0: Tree, s: Tree, rootPath: Path, src: Path, random: nat -> string)
    requires Probing(s0, s, src, None) && src != [] && SRC_PREFIX <= FileTree.Leaf(src)
    ensures AllFree(s0, rootPath, DST_PREFIX, random) ==> AllFree(s, rootPath, DST_PREFIX, random)
  {
    if AllFree(s0, rootPath, DST_PREFIX, random) {
      forall t: nat ensures rootPath + [DST_PREFIX + random(t)] !in s {
        var p := rootPath + [DST_PREFIX + random(t)];
        assert FileTree.Leaf(p) == DST_PREFIX + random(t) && FileTree.Leaf(p)[25] == 'd' && SRC_PREFIX[25] == 's';
      }
    }
  }

  function Preparing(err: Error): Error { Wrapped("prepare share root probe: ", err, "") }

  const UNSUPPORTED := "share root does not support reflink: "
  const FAILED := "share root failed reflink probe: "

  /** The error is, or is classified as, EOPNOTSUPP. */
  predicate SaysUnsupported(err: Error) {
    (AsCoded(err).Some? && AsCoded(err).value.code == EOpNotSupp) || CodeFromError(err) == EOpNotSupp
  }

  /** How a failing reflink is reported. */
  function ProbeVerdict(err: Option<Error>): Option<Error> {
    if err.None? then None
    else Some(Wrapped(if SaysUnsupported(err.value) then UNSUPPORTED else FAILED, err.value, ""))
  }

  /**
   * The verdict on a clone that fails: unsupported for the two error numbers that mean it, a failed probe otherwise.
   */
  lemma VerdictOnClone(p: Path, e: Errno)
    ensures var err := MapReflinkError(PathError("ficlone", p, e));
            ProbeVerdict(Some(err))
                == Some(Wrapped(if e == EOPNOTSUPP || e == EXDEV then UNSUPPORTED else FAILED, err, ""))
  {
    VerdictOnLeaf(PathError("ficlone", p, e), e);
  }

  lemma VerdictOnLeaf(err: Error, e: Errno)
    requires err.Leaf? && err.cause == Sys(e)
    ensures SaysUnsupported(MapReflinkError(err)) <==> e == EOPNOTSUPP || e == EXDEV
    ensures SaysUnsupported(err) <==> e == EOPNOTSUPP || e == EXDEV
  {
    ClassOfClone(err, e);
    assert AsCoded(err).None?;
  }
}
