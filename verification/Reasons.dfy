/**
 * Why a request fails when others run too, and what it is answered: each failing request has a call of its own at which
 * its error arose, answered for the unknown failure of that call or for what stood in its way at that moment; and from
 * there on the error is passed on unchanged, except that a failing chmod is joined to it.
 */
module Reasons {
  import opened Wrappers
  import opened Protocol
  import opened FileTree
  import opened Kernels
  import opened Reflinks
  import opened TreeImages
  import opened TreeWalks
  import opened Resolve
  import opened Services
  import opened Workers

  /** The error a worker carries. */
  function ErrorOf(pc: Pc): Option<Error> {
    match pc
    case Copy(_, _, _, Closing(err, _)) => err
    case Copy(_, _, _, Removing(err)) => err
    case Copy(_, _, _, ClosingSource(err)) => err
    case Restore(_, walkErr) => walkErr
    case Done(result) => result
    case _ => None
  }

  function Said(err: Error): ErrorDetail { ResponseFromError(Some(err)).error.value }

  const OUT := ErrorDetail(EPerm, "path must stay within the shared root")

  /** What a failing call of the checks is answered, given the state it found. */
  ghost predicate CheckSays(s: Tree, w: Worker, said: ErrorDetail) {
    var src, dst := w.job.Source(), w.job.Destination();
    match w.pc
    case JoinSrc | JoinDst(_) | JoinParent(_) => said == OUT
    case WalkSrc(i) =>
      && i < |w.job.src|
      && said == if w.job.root + w.job.src[..i + 1] in s then ErrorDetail(EInval, "symlinks are not supported")
                 else ErrorDetail(ENoEnt, "source not found")
    case StatSrc =>
      said == if src !in s then ErrorDetail(ENoEnt, "source not found")
              else
                ErrorDetail(EInval, if s[src].Symlink? then "symlinks are not supported"
                                    else if w.job.recursive then "source must be a directory"
                                    else if s[src].File? then "hard links are not supported"
                                    else "source must be a regular file")
    case WalkDst(i, _) =>
      && i < |w.job.dst|
      && var p := w.job.root + w.job.dst[..i + 1];
         said == if p in s then ErrorDetail(EInval, "symlinks are not supported") else MissingParentSays(s, p)
    case StatDst(_) =>
      said == if dst in s then ErrorDetail(EExist, "destination already exists")
              else ErrorDetail(ENoEnt, "source not found")
    case StatParent(_) =>
      var p := w.job.DestinationDir();
      said == if p !in s then MissingParentSays(s, p)
              else ErrorDetail(EInval, if s[p].Symlink? then "symlinks are not supported"
                                       else "destination parent must be a directory")
    case _ => false
  }

  function MissingParentSays(s: Tree, p: Path): ErrorDetail {
    ErrorDetail(ENoEnt, if Missing(s, p) == ENOENT then "destination parent does not exist" else "source not found")
  }

  /** What a failing call of the copying and restoring is answered, given the state it found. */
  ghost predicate WorkSays(s: Tree, w: Worker, err: Error) {
    match w.pc
    case StatRoot =>
      if w.job.Source() !in s then Answers(err, Missing(s, w.job.Source()))
      else Said(err) == ErrorDetail(EInval, "source must be a directory")
    case MakeRoot(_) => CannotCreate(s, w.job.Destination(), err)
    case StatWalk => w.job.Source() !in s && Answers(err, Missing(s, w.job.Source()))
    case Read(dir) => !IsDirAt(s, dir) && Answers(err, if dir in s then ENOTDIR else Missing(s, dir))
    case Visit(p) =>
      if p !in s then Answers(err, Missing(s, p))
      else !Clonable(s[p]) && ResponseFromError(Some(err)) == ResponseFromError(Rejection(s[p]))
    case MakeDir(p, _) => CannotCreate(s, w.job.Target(p), err)
    case Copy(from, _, _, Opening) => from !in s && Answers(err, Missing(s, from))
    case Copy(_, to, _, Creating) => CannotCreate(s, to, err)
    case Copy(from, _, _, Cloning) => CloneErrno(s, from).Some? && Answers(err, CloneErrno(s, from).value)
    case Restore(left, _) =>
      0 < left <= |w.directories|
      && var p := w.directories[left - 1].path; Answers(err, Missing(s, p))
    case _ => false
  }

  ghost predicate CannotCreate(s: Tree, p: Path, err: Error) {
    CreateErrno(s, p).Some? && Answers(err, CreateErrno(s, p).value)
  }

  /** The answer to an error that arises at a call: for its unknown failure, or for what it found. */
  ghost predicate CheckDeserved(s: Tree, w: Worker, fault: Option<Errno>, err: Error) {
    if fault.Some? then
      || Said(err).code == ErrnoCode(fault.value)
      || ((w.pc.JoinSrc? || w.pc.JoinDst? || w.pc.JoinParent?) && Said(err) == OUT)
    else CheckSays(s, w, Said(err))
  }

  ghost predicate WorkDeserved(s: Tree, w: Worker, fault: Option<Errno>, err: Error) {
    if fault.Some? then Said(err).code == ErrnoCode(fault.value) else WorkSays(s, w, err)
  }

  ghost predicate Deserved(s: Tree, w: Worker, fault: Option<Errno>, err: Error) {
    if w.pc.Copy? || InTree(w.pc) then WorkDeserved(s, w, fault, err) else CheckDeserved(s, w, fault, err)
  }

  // ---------------------------------------------------------------------------------------------
  // One call
  // ---------------------------------------------------------------------------------------------

  lemma ErrorSays(op: string, p: Path, e: Errno)
    ensures Answers(PathError(op, p, e), e) && Said(PathError(op, p, e)).code == ErrnoCode(e)
    ensures ErrnoCode(e) == ENoEnt ==> Said(PathError(op, p, e)) == ErrorDetail(ENoEnt, "source not found")
  {
    ErrorAnswers(op, p, e);
  }

  lemma NotFoundSays(op: string, p: Path, e: Errno, message: string)
    ensures Said(NotFound(PathError(op, p, e), message)).code == ErrnoCode(e)
    ensures e == ENOENT ==> Said(NotFound(PathError(op, p, e), message)) == ErrorDetail(ENoEnt, message)
    ensures e == ENOTDIR ==> Said(NotFound(PathError(op, p, e), message)) == ErrorDetail(ENoEnt, "source not found")
  {
    hide Protocol.MessageFromError;
    hide Protocol.CodeFromError;
    ErrorSays(op, p, e);
  }

  /** A look that fails, and what is made of it. */
  lemma LookSays(s: Tree, p: Path, fault: Option<Errno>, message: string)
    requires Look(s, p, fault).Err?
    ensures var said := Said(NotFound(Look(s, p, fault).error, message));
            if fault.Some? then said.code == ErrnoCode(fault.value)
            else
              && p !in s
              && said == ErrorDetail(ENoEnt, if Missing(s, p) == ENOENT then message else "source not found")
  {
    NotFoundSays("lstat", p, if fault.Some? then fault.value else Missing(s, p), message);
  }

  lemma CodedSays(code: Code, message: string, under: Option<Error>)
    ensures Said(Coded(code, message, under)) == ErrorDetail(code, message)
  {
  }

  lemma SourceComponentReason(s: Tree, w: Worker, i: nat, fault: Option<Errno>)
    requires i < |w.job.src| && w.pc == WalkSrc(i)
    ensures var w' := SourceComponent(s, w, i, fault);
            ErrorOf(w'.pc).Some? ==> CheckDeserved(s, w, fault, ErrorOf(w'.pc).value)
  {
    hide Said;
    hide NotFound;
    var p := w.job.root + w.job.src[..i + 1];
    var info := Look(s, p, fault);
    if info.Err? {
      LookSays(s, p, fault, "source not found");
    } else {
      CodedSays(EInval, "symlinks are not supported", None);
    }
  }

  lemma UnfitSays(n: Node, recursive: bool)
    ensures var unfit := Unfit(Info(n), recursive);
            unfit.Some? ==>
              Said(unfit.value) == ErrorDetail(EInval, if n.Symlink? then "symlinks are not supported"
                                                       else if recursive then "source must be a directory"
                                                       else if n.File? then "hard links are not supported"
                                                       else "source must be a regular file")
  {
    UnfitMeaning(n, recursive);
  }

  lemma SourceItselfReason(s: Tree, w: Worker, fault: Option<Errno>)
    requires w.pc == StatSrc
    ensures var w' := SourceItself(s, w, fault);
            ErrorOf(w'.pc).Some? ==> CheckDeserved(s, w, fault, ErrorOf(w'.pc).value)
  {
    hide Said;
    hide NotFound;
    var p := w.job.Source();
    var info := Look(s, p, fault);
    if info.Err? {
      LookSays(s, p, fault, "source not found");
    } else {
      UnfitSays(s[p], w.job.recursive);
    }
  }

  lemma JoinReason(s: Tree, w: Worker, parts: seq<string>, fault: Option<Errno>, next: Pc)
    requires (w.pc.JoinSrc? || w.pc.JoinDst? || w.pc.JoinParent?) && ErrorOf(next).None?
    ensures var w' := AfterJoin(s, w, parts, fault, next);
            ErrorOf(w'.pc).Some? ==> CheckDeserved(s, w, fault, ErrorOf(w'.pc).value)
  {
    hide Said;
    if fault.Some? {
      CodedSays(EPerm, OUTSIDE, Some(PathError("lstat", w.job.root, fault.value)));
    } else {
      CodedSays(EPerm, OUTSIDE, Some(PathError("SecureJoin", w.job.root, ELOOP)));
    }
  }

  lemma SourceReason(s: Tree, w: Worker, fault: Option<Errno>)
    requires w.pc.JoinSrc? || w.pc.WalkSrc? || w.pc.StatSrc?
    ensures var w' := SourceStep(s, w, fault); ErrorOf(w'.pc).Some? ==> CheckDeserved(s, w, fault, ErrorOf(w'.pc).value)
  {
    hide CheckDeserved;
    match w.pc
    case JoinSrc => JoinReason(s, w, w.job.src, fault, if w.job.src == [] then StatSrc else WalkSrc(0));
    case WalkSrc(i) => if i < |w.job.src| { SourceComponentReason(s, w, i, fault); }
    case StatSrc => SourceItselfReason(s, w, fault);
  }

  lemma DestinationReason(s: Tree, w: Worker, fault: Option<Errno>)
    requires Resolving(w.pc)
    ensures var w' := DestinationStep(s, w, fault);
            ErrorOf(w'.pc).Some? ==> CheckDeserved(s, w, fault, ErrorOf(w'.pc).value)
  {
    hide CheckDeserved;
    match w.pc
    case JoinDst(mode) =>
      JoinReason(s, w, w.job.dst, fault, if w.job.dst == [] then StatDst(mode) else WalkDst(0, mode));
    case WalkDst(i, mode) => if i < |w.job.dst| { ComponentReason(s, w, i, mode, fault); }
    case StatDst(mode) => ItselfReason(s, w, mode, fault);
    case JoinParent(mode) => JoinReason(s, w, DirParts(w.job.dst), fault, StatParent(mode));
    case StatParent(mode) => ParentReason(s, w, mode, fault);
    case _ =>
  }

  lemma ComponentReason(s: Tree, w: Worker, i: nat, mode: FileMode, fault: Option<Errno>)
    requires i < |w.job.dst| && w.pc == WalkDst(i, mode)
    ensures var w' := DestinationComponent(s, w, i, mode, fault);
            ErrorOf(w'.pc).Some? ==> CheckDeserved(s, w, fault, ErrorOf(w'.pc).value)
  {
    hide Said;
    hide NotFound;
    var p := w.job.root + w.job.dst[..i + 1];
    if Look(s, p, fault).Err? {
      LookSays(s, p, fault, "destination parent does not exist");
    } else {
      CodedSays(EInval, "symlinks are not supported", None);
    }
  }

  lemma ItselfReason(s: Tree, w: Worker, mode: FileMode, fault: Option<Errno>)
    requires w.pc == StatDst(mode)
    ensures var w' := DestinationItself(s, w, mode, fault);
            ErrorOf(w'.pc).Some? ==> CheckDeserved(s, w, fault, ErrorOf(w'.pc).value)
  {
    hide Said;
    hide Protocol.Answers;
    hide Kernels.PathError;
    var p := w.job.Destination();
    if Look(s, p, fault).Err? {
      ErrorSays("lstat", p, if fault.Some? then fault.value else Missing(s, p));
    } else {
      CodedSays(EExist, "destination already exists", None);
    }
  }

  lemma ParentReason(s: Tree, w: Worker, mode: FileMode, fault: Option<Errno>)
    requires w.pc == StatParent(mode)
    ensures var w' := DestinationParent(s, w, mode, fault);
            ErrorOf(w'.pc).Some? ==> CheckDeserved(s, w, fault, ErrorOf(w'.pc).value)
  {
    hide Said;
    hide NotFound;
    var p := w.job.DestinationDir();
    if Look(s, p, fault).Err? {
      LookSays(s, p, fault, "destination parent does not exist");
    } else {
      CodedSays(EInval, "symlinks are not supported", None);
      CodedSays(EInval, "destination parent must be a directory", None);
    }
  }

  lemma CloneSays(p: Path, e: Errno)
    ensures var err := MapReflinkError(PathError("ficlone", p, e)); Answers(err, e) && Said(err).code == ErrnoCode(e)
  {
    CloneErrorAnswers(p, e);
  }

  lemma CloneReason(s: Tree, w: Worker, umask: bv9, choice: Choice)
    requires w.pc.Copy? && w.pc.at.Cloning?
    ensures var w' := CopyStep(s, w, umask, choice).1;
            ErrorOf(w'.pc).Some? ==> WorkDeserved(s, w, choice.fault, ErrorOf(w'.pc).value)
  {
    hide Said;
    hide Protocol.Answers;
    hide Kernels.PathError;
    hide Reflinks.MapReflinkError;
    var e := if choice.fault.Some? then choice.fault else CloneErrno(s, w.pc.from);
    if e.Some? {
      CloneSays(w.pc.from, e.value);
    }
  }

  lemma OpeningReason(s: Tree, w: Worker, umask: bv9, choice: Choice)
    requires w.pc.Copy? && (w.pc.at.Opening? || w.pc.at.Creating?)
    ensures var w' := CopyStep(s, w, umask, choice).1;
            ErrorOf(w'.pc).Some? ==> WorkDeserved(s, w, choice.fault, ErrorOf(w'.pc).value)
  {
    hide Said;
    hide Protocol.Answers;
    hide Kernels.PathError;
    var p := if w.pc.at.Opening? then w.pc.from else w.pc.to;
    var missing := if w.pc.at.Creating? then CreateErrno(s, p) else if p in s then None else Some(Missing(s, p));
    var e := if choice.fault.Some? then choice.fault else missing;
    if e.Some? {
      ErrorSays("open", p, e.value);
    }
  }

  lemma FinishingReason(s: Tree, w: Worker, umask: bv9, choice: Choice)
    requires w.pc.Copy? && (w.pc.at.Chmodding? || w.pc.at.Closing?) && ErrorOf(w.pc).None?
    ensures var w' := CopyStep(s, w, umask, choice).1;
            ErrorOf(w'.pc).Some? ==> WorkDeserved(s, w, choice.fault, ErrorOf(w'.pc).value)
  {
    hide Said;
    hide Protocol.Answers;
    hide Kernels.PathError;
    if choice.fault.Some? {
      ErrorSays(if w.pc.at.Chmodding? then "chmod" else "close", w.pc.to, choice.fault.value);
    }
  }

  lemma CopyReason(s: Tree, w: Worker, umask: bv9, choice: Choice)
    requires w.pc.Copy? && ErrorOf(w.pc).None?
    ensures var w' := CopyStep(s, w, umask, choice).1;
            ErrorOf(w'.pc).Some? ==> WorkDeserved(s, w, choice.fault, ErrorOf(w'.pc).value)
  {
    hide WorkDeserved;
    match w.pc.at
    case Opening | Creating => OpeningReason(s, w, umask, choice);
    case Cloning => CloneReason(s, w, umask, choice);
    case Chmodding | Closing(_, _) => FinishingReason(s, w, umask, choice);
    case _ =>
  }

  lemma LookReason(s: Tree, w: Worker, umask: bv9, fault: Option<Errno>)
    requires w.pc.StatRoot? || w.pc.StatWalk?
    ensures var w' := TreeStep(s, w, umask, fault).1;
            ErrorOf(w'.pc).Some? ==> WorkDeserved(s, w, fault, ErrorOf(w'.pc).value)
  {
    hide Said;
    hide Protocol.Answers;
    hide Kernels.PathError;
    var src := w.job.Source();
    if Look(s, src, fault).Err? {
      ErrorSays("lstat", src, if fault.Some? then fault.value else Missing(s, src));
    } else {
      CodedSays(EInval, "source must be a directory", None);
    }
  }

  lemma ReadReason(s: Tree, w: Worker, umask: bv9, fault: Option<Errno>)
    requires w.pc.Read?
    ensures var w' := TreeStep(s, w, umask, fault).1;
            ErrorOf(w'.pc).Some? ==> WorkDeserved(s, w, fault, ErrorOf(w'.pc).value)
  {
    hide Said;
    hide Protocol.Answers;
    hide Kernels.PathError;
    var dir := w.pc.dir;
    ErrorSays("open", dir, if fault.Some? then fault.value else if dir in s then ENOTDIR else Missing(s, dir));
  }

  lemma MakeReason(s: Tree, w: Worker, umask: bv9, fault: Option<Errno>)
    requires w.pc.MakeRoot? || w.pc.MakeDir?
    ensures var w' := TreeStep(s, w, umask, fault).1;
            ErrorOf(w'.pc).Some? ==> WorkDeserved(s, w, fault, ErrorOf(w'.pc).value)
  {
    hide Said;
    hide Protocol.Answers;
    hide Kernels.PathError;
    var p := if w.pc.MakeRoot? then w.job.Destination() else w.job.Target(w.pc.path);
    var e := if fault.Some? then fault else CreateErrno(s, p);
    if e.Some? {
      ErrorSays("mkdir", p, e.value);
    }
  }

  lemma RestoreReason(s: Tree, w: Worker, umask: bv9, fault: Option<Errno>)
    requires w.pc.Restore? && ErrorOf(w.pc).None?
    ensures var w' := TreeStep(s, w, umask, fault).1;
            ErrorOf(w'.pc).Some? ==> WorkDeserved(s, w, fault, ErrorOf(w'.pc).value)
  {
    hide Said;
    hide Protocol.Answers;
    hide Kernels.PathError;
    if 0 < w.pc.left <= |w.directories| {
      var p := w.directories[w.pc.left - 1].path;
      ErrorSays("chmod", p, if fault.Some? then fault.value else Missing(s, p));
    }
  }

  lemma TreeReason(s: Tree, w: Worker, umask: bv9, fault: Option<Errno>)
    requires InTree(w.pc) && ErrorOf(w.pc).None?
    ensures var w' := TreeStep(s, w, umask, fault).1;
            ErrorOf(w'.pc).Some? ==> WorkDeserved(s, w, fault, ErrorOf(w'.pc).value)
  {
    match w.pc
    case Visit(_) => VisitReason(s, w, umask, fault);
    case MakeRoot(_) => MakeReason(s, w, umask, fault);
    case MakeDir(_, _) => MakeReason(s, w, umask, fault);
    case Restore(_, _) => RestoreReason(s, w, umask, fault);
    case Read(_) => ReadReason(s, w, umask, fault);
    case _ => LookReason(s, w, umask, fault);
  }

  lemma VisitReason(s: Tree, w: Worker, umask: bv9, fault: Option<Errno>)
    requires w.pc.Visit?
    ensures var w' := TreeStep(s, w, umask, fault).1;
            ErrorOf(w'.pc).Some? ==> WorkDeserved(s, w, fault, ErrorOf(w'.pc).value)
  {
    hide Said;
    hide Protocol.Answers;
    hide Protocol.ResponseFromError;
    hide Kernels.PathError;
    var p := w.pc.path;
    ErrorSays("lstat", p, if fault.Some? then fault.value else Missing(s, p));
  }

  /** An error that arises is deserved. */
  lemma ErrorHasReason(s: Tree, w: Worker, umask: bv9, choice: Choice)
    requires ErrorOf(w.pc).None?
    ensures var w' := WorkerStep(s, w, umask, choice).1;
            ErrorOf(w'.pc).Some? ==> Deserved(s, w, choice.fault, ErrorOf(w'.pc).value)
  {
    if w.pc.Copy? {
      CopyReason(s, w, umask, choice);
    } else if InTree(w.pc) {
      TreeReason(s, w, umask, choice.fault);
    } else if w.pc.JoinSrc? || w.pc.WalkSrc? || w.pc.StatSrc? {
      SourceReason(s, w, choice.fault);
    } else if Resolving(w.pc) {
      DestinationReason(s, w, choice.fault);
    }
  }

  /** `err` is `cause`, or `cause` joined with the failure of a chmod. */
  ghost predicate Carries(err: Error, cause: Error) {
    err == cause || exists p, e :: JoinedAnswer(Some(cause), Some(PathError("chmod", p, e)), Some(err))
  }

  lemma ErrorIsKept(s: Tree, w: Worker, umask: bv9, choice: Choice)
    requires ErrorOf(w.pc).Some? && !w.pc.Restore?
    ensures var w' := WorkerStep(s, w, umask, choice).1;
            ErrorOf(w'.pc) == ErrorOf(w.pc) && (w.pc.Done? ==> w' == w)
  {
  }

  /** An error once there is carried along; only the failing of a restoring chmod is joined to it. */
  lemma ErrorIsCarried(s: Tree, w: Worker, umask: bv9, choice: Choice)
    requires ErrorOf(w.pc).Some?
    ensures var w' := WorkerStep(s, w, umask, choice).1;
            && ErrorOf(w'.pc).Some? && Carries(ErrorOf(w'.pc).value, ErrorOf(w.pc).value)
            && (ErrorOf(w'.pc) != ErrorOf(w.pc) ==> w.pc.Restore? && w'.pc.Done?)
            && (w.pc.Done? ==> w' == w)
  {
    var w' := WorkerStep(s, w, umask, choice).1;
    if !w.pc.Restore? {
      ErrorIsKept(s, w, umask, choice);
    } else if ErrorOf(w'.pc) != ErrorOf(w.pc) {
      var p := w.directories[w.pc.left - 1].path;
      var e := if choice.fault.Some? then choice.fault.value else Missing(s, p);
      assert ErrorOf(w'.pc) == JoinErrors(w.pc.walkErr, Some(PathError("chmod", p, e)));
      JoinErrorsAnswer(w.pc.walkErr, Some(PathError("chmod", p, e)));
    }
  }

  // ---------------------------------------------------------------------------------------------
  // Every run
  // ---------------------------------------------------------------------------------------------

  /** The error arose at this action, a call of worker `id`, and was deserved. */
  ghost predicate AroseAt(st: System, umask: bv9, a: Action, id: nat, cause: Error) {
    && a.Run? && a.id == id && id < |st.workers| && ErrorOf(st.workers[id].pc).None?
    && ErrorOf(StepOf(st, umask, id, a.choice).1.pc) == Some(cause)
    && Deserved(st.nodes, st.workers[id], a.choice.fault, cause)
  }

  ghost predicate Arose(n0: Tree, umask: bv9, actions: seq<Action>, id: nat, cause: Error) {
    exists i: nat :: i < |actions| && AroseAt(Execution(n0, umask, actions[..i]), umask, actions[i], id, cause)
  }

  lemma AroseBefore(n0: Tree, umask: bv9, actions: seq<Action>, id: nat, cause: Error)
    requires actions != [] && Arose(n0, umask, actions[..|actions| - 1], id, cause)
    ensures Arose(n0, umask, actions, id, cause)
  {
    var before := actions[..|actions| - 1];
    var i: nat :| i < |before| && AroseAt(Execution(n0, umask, before[..i]), umask, before[i], id, cause);
    assert before[..i] == actions[..i];
  }

  /** The reason of the error that a worker carries. */
  ghost predicate HasReason(n0: Tree, umask: bv9, actions: seq<Action>, id: nat, w: Worker) {
    ErrorOf(w.pc).Some? ==>
      exists cause ::
        && Arose(n0, umask, actions, id, cause) && Carries(ErrorOf(w.pc).value, cause)
        && (!w.pc.Done? ==> ErrorOf(w.pc) == Some(cause))
  }

  lemma ReasonArises(n0: Tree, umask: bv9, actions: seq<Action>, a: Action, id: nat, cause: Error)
    requires var st := Execution(n0, umask, actions);
             && a.Run? && a.id == id && id < |st.workers| && ErrorOf(st.workers[id].pc).None?
             && ErrorOf(StepOf(st, umask, id, a.choice).1.pc) == Some(cause)
    ensures Arose(n0, umask, actions + [a], id, cause)
  {
    hide Deserved;
    hide Workers.WorkerStep;
    var st := Execution(n0, umask, actions);
    assert (actions + [a])[..|actions|] == actions;
    ErrorHasReason(st.nodes, st.workers[id], umask, Settled(st, st.workers[id], a.choice));
    assert AroseAt(Execution(n0, umask, (actions + [a])[..|actions|]), umask, (actions + [a])[|actions|], id, cause);
  }

  lemma NextHasReason(n0: Tree, umask: bv9, actions: seq<Action>, a: Action, id: nat)
    requires var st := Execution(n0, umask, actions);
             id < |st.workers| && HasReason(n0, umask, actions, id, st.workers[id])
    ensures var st := Execution(n0, umask, actions);
            id < |Next(st, umask, a).workers| && HasReason(n0, umask, actions + [a], id, Next(st, umask, a).workers[id])
  {
    hide Deserved;
    hide Workers.WorkerStep;
    hide TreeWalks.JoinedAnswer;
    var st := Execution(n0, umask, actions);
    var w, w' := st.workers[id], Next(st, umask, a).workers[id];
    assert (actions + [a])[..|actions|] == actions;
    if ErrorOf(w.pc).Some? {
      var cause :| && Arose(n0, umask, actions, id, cause) && Carries(ErrorOf(w.pc).value, cause)
                   && (!w.pc.Done? ==> ErrorOf(w.pc) == Some(cause));
      AroseBefore(n0, umask, actions + [a], id, cause);
      if a.Run? && a.id == id {
        ErrorIsCarried(st.nodes, w, umask, Settled(st, w, a.choice));
      }
    } else if a.Run? && a.id == id {
      if ErrorOf(w'.pc).Some? {
        ReasonArises(n0, umask, actions, a, id, ErrorOf(w'.pc).value);
      }
    }
  }

  lemma {:induction false} ReasonAlways(n0: Tree, umask: bv9, actions: seq<Action>, id: nat)
    requires id < |Execution(n0, umask, actions).workers|
    ensures HasReason(n0, umask, actions, id, Execution(n0, umask, actions).workers[id])
    decreases |actions|
  {
    var before, a := actions[..|actions| - 1], actions[|actions| - 1];
    var st := Execution(n0, umask, before);
    assert before + [a] == actions;
    if id < |st.workers| {
      ReasonAlways(n0, umask, before, id);
      NextHasReason(n0, umask, before, a, id);
    } else {
      assert a.Arrive?;
    }
  }

  /**
   * In any interleaving, with any failures: a request that reports failure is answered for an error that arose at one
   * of its own calls and was deserved there, joined at most with the failure of a restoring chmod.
   */
  lemma FailureHasReason(n0: Tree, umask: bv9, actions: seq<Action>, id: nat) returns (cause: Error)
    requires var st := Execution(n0, umask, actions); id < |st.workers| && Failed(st.workers[id])
    ensures Arose(n0, umask, actions, id, cause)
    ensures Carries(Execution(n0, umask, actions).workers[id].pc.result.value, cause)
  {
    ReasonAlways(n0, umask, actions, id);
    var w := Execution(n0, umask, actions).workers[id];
    cause :| Arose(n0, umask, actions, id, cause) && Carries(ErrorOf(w.pc).value, cause);
  }
}
