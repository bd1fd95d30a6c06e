/**
 * Service (internal/service/service.go): one request carried out on a share.
 */
module Services {
  import opened Wrappers
  import opened Protocol
  import opened Validate
  import opened FileTree
  import opened Kernels
  import opened Reflinks
  import opened TreeImages
  import opened TreeWalks
  import opened Resolve

  function RequireRegularFile(info: FileInfo): Option<Error> {
    match info.mode.kind
    case SymbolicLink => Some(NO_SYMLINKS)
    case Regular => None
    case _ => Some(NewError(EInval, "source must be a regular file"))
  }

  function RequireDirectory(info: FileInfo): Option<Error> {
    match info.mode.kind
    case SymbolicLink => Some(NO_SYMLINKS)
    case Directory => None
    case _ => Some(NewError(EInval, "source must be a directory"))
  }

  function SourcePath(processDir: string, root: string, req: Request): Path {
    HostPath(processDir, root, NormalizeRelative(req.src).GetOr(Paths.DOT))
  }

  function DestinationPath(processDir: string, root: string, req: Request): Path {
    HostPath(processDir, root, NormalizeRelative(req.dst).GetOr(Paths.DOT))
  }

  // ---------------------------------------------------------------------------------------------
  // What a request is answered
  // ---------------------------------------------------------------------------------------------

  /** The source is of the kind the request is about. */
  ghost predicate SourceFits(n: Node, recursive: bool) {
    if recursive then n.Dir? else n.File? && n.nlink <= 1
  }

  /** The request can be carried out, as far as it can be told before the first creation. */
  ghost predicate Startable(s: Tree, processDir: string, root: string, req: Request) {
    && Sound(req)
    && SourceFitting(s, processDir, root, req)
    && DestinationFree(s, processDir, root, req.dst)
  }

  /** The one thing the repository leaves to its callers: a tree walk that can be started comes to an end. */
  ghost predicate EndsIfStarted(s: Tree, processDir: string, root: string, req: Request) {
    req.recursive && Startable(s, processDir, root, req) ==>
      ComesToAnEnd(s, SourcePath(processDir, root, req), DestinationPath(processDir, root, req))
  }

  /** The request can be carried out: for a tree, every node in it can be cloned. */
  ghost predicate Acceptable(s: Tree, processDir: string, root: string, req: Request) {
    && Startable(s, processDir, root, req)
    && (req.recursive ==> AllClonable(s, SourcePath(processDir, root, req)))
  }

  /** The message about a source of the wrong kind. */
  function WrongKind(n: Node, recursive: bool): string {
    if recursive then "source must be a directory"
    else if n.File? then "hard links are not supported"
    else "source must be a regular file"
  }

  /** The source is there and of the right kind. */
  ghost predicate SourceFitting(s: Tree, processDir: string, root: string, req: Request) {
    SourceFound(s, processDir, root, req.src) && SourceFits(s[SourcePath(processDir, root, req)], req.recursive)
  }

  /** The response to a request whose source is missing or does not fit. */
  ghost function SourceRefusal(s: Tree, processDir: string, root: string, req: Request): Response {
    if !SourceFound(s, processDir, root, req.src) then
      PathRefusal(s, processDir, root, req.src).GetOr(FailureResponse(ENoEnt, "source not found"))
    else FailureResponse(EInval, WrongKind(s[SourcePath(processDir, root, req)], req.recursive))
  }

  /** The response to a request that is refused before anything is created. */
  ghost function Refusal(s: Tree, processDir: string, root: string, req: Request): Response {
    if !Sound(req) then BadRequest(req)
    else if !SourceFitting(s, processDir, root, req) then SourceRefusal(s, processDir, root, req)
    else DestinationRefusal(s, processDir, root, req.dst)
  }

  /** The state after a request carried out in full. */
  ghost predicate CarriedOut(s: Tree, s': Tree, processDir: string, root: string, req: Request) {
    var src, dst := SourcePath(processDir, root, req), DestinationPath(processDir, root, req);
    if req.recursive then IsTreeClone(s, s', src, dst)
    else src in s && s[src].File? && dst !in s && s' == s[dst := CloneOf(s[src], Info(s[src]).mode)]
  }

  /** The checks on the source's kind, in order. */
  function Unfit(info: FileInfo, recursive: bool): Option<Error> {
    if recursive then RequireDirectory(info)
    else
      var irregular := RequireRegularFile(info);
      if irregular.Some? then irregular else RejectHardlink(info)
  }

  lemma UnfitMeaning(n: Node, recursive: bool)
    ensures Unfit(Info(n), recursive).None? <==> SourceFits(n, recursive)
    ensures Unfit(Info(n), recursive).Some? ==>
              ResponseFromError(Unfit(Info(n), recursive))
              == FailureResponse(EInval, if n.Symlink? then "symlinks are not supported"
                                         else if recursive then "source must be a directory"
                                         else if n.File? then "hard links are not supported"
                                         else "source must be a regular file")
  {
  }

  /**
   * A source that does not fit is what a sound request is refused for, whatever its destination: for its path, because
   * it is missing, or for its kind.
   */
  lemma SourceIsRefusedFirst(s: Tree, processDir: string, root: string, req: Request)
    requires FileTree.Valid(s) && RootIsPlain(s, processDir, root) && Sound(req)
    requires !SourceFitting(s, processDir, root, req)
    ensures var rootPath := RootPath(processDir, root);
            var parts := Paths.Components(NormalizeRelative(req.src).GetOr(Paths.DOT));
            var p, refusal := rootPath + parts, Refusal(s, processDir, root, req);
            && (root == "" ==> refusal == FailureResponse(EInval, "share root is required"))
            && (root != "" && !LinkFree(s, rootPath, parts) ==>
                  refusal == if Resolved(s, rootPath, [], parts, 0).None? then
                               FailureResponse(EPerm, "path must stay within the shared root")
                             else FailureResponse(EInval, "symlinks are not supported"))
            && (root != "" && LinkFree(s, rootPath, parts) && p !in s ==>
                  refusal == FailureResponse(ENoEnt, "source not found"))
            && (root != "" && LinkFree(s, rootPath, parts) && p in s ==>
                  refusal == FailureResponse(EInval, if req.recursive then "source must be a directory"
                                                     else if s[p].File? then "hard links are not supported"
                                                     else "source must be a regular file"))
  {
    NormalizeSays(req.src);
    NormalizedIsClean(req.src);
    var rootPath, clean := RootPath(processDir, root), NormalizeRelative(req.src).value;
    GivesUpByComponents(s, rootPath, clean);
    if root != "" && LinkFree(s, rootPath, Paths.Components(clean)) {
      CleanDoesNotGiveUp(s, rootPath, clean);
      PlainBelow(s, rootPath, Paths.Components(clean));
    }
    if SourceFound(s, processDir, root, req.src) {
      SourceFoundIsNotRefused(s, processDir, root, req.src);
    }
  }

  /** The beginning of reflinkSingle and of reflinkTree: the source resolved, and its kind checked. */
  method CheckSource(k: Kernel, processDir: string, root: string, req: Request)
      returns (r: Result<(Path, FileInfo), Error>)
    requires k.Valid() && RootIsPlain(k.nodes, processDir, root) && ValidRequest(req).None?
    modifies k`clock
    ensures k.Valid() && old(k.clock) <= k.clock
    ensures r.Ok? ==>
              && SourceFitting(k.nodes, processDir, root, req)
              && r.value == (SourcePath(processDir, root, req), Info(k.nodes[SourcePath(processDir, root, req)]))
    ensures r.Err? && k.Admits() ==>
              || LookBlamed(k.faults, old(k.clock), k.clock, r.error)
              || (!SourceFitting(k.nodes, processDir, root, req)
                  && ResponseFromError(Some(r.error)) == SourceRefusal(k.nodes, processDir, root, req))
  {
    RequestPathsAreNormal(req);
    r := ResolveSource(k, processDir, root, req.src);
    if r.Err? {
      return;
    }
    var unfit := Unfit(r.value.1, req.recursive);
    UnfitMeaning(k.nodes[SourcePath(processDir, root, req)], req.recursive);
    if unfit.Some? {
      r := Err(unfit.value);
    }
  }

  /** All of what reflinkSingle and reflinkTree ask before they make anything. */
  method CheckRequest(k: Kernel, processDir: string, root: string, req: Request)
    returns (r: Result<(Path, FileInfo, Path), Error>)
    requires k.Valid() && RootIsPlain(k.nodes, processDir, root) && ValidRequest(req).None?
    modifies k`clock
    ensures k.Valid() && old(k.clock) <= k.clock
    ensures r.Ok? ==>
              && Startable(k.nodes, processDir, root, req)
              && r.value == (SourcePath(processDir, root, req), Info(k.nodes[SourcePath(processDir, root, req)]),
                             DestinationPath(processDir, root, req))
    ensures r.Err? && k.Admits() ==>
              || LookBlamed(k.faults, old(k.clock), k.clock, r.error)
              || (!Startable(k.nodes, processDir, root, req)
                  && ResponseFromError(Some(r.error)) == Refusal(k.nodes, processDir, root, req))
  {
    RequestPathsAreNormal(req);
    var src := CheckSource(k, processDir, root, req);
    if src.Err? {
      return Err(src.error);
    }
    ghost var found := k.clock;
    var dst := ResolveDestination(k, processDir, root, req.dst);
    if dst.Err? {
      LookStillBlamed(k.faults, found, k.clock, old(k.clock), k.clock, dst.error);
      return Err(dst.error);
    }
    r := Ok((src.value.0, src.value.1, dst.value.0));
  }

  /** The calls made in a stretch of time, how they fail, and whether the process's own directories let it in. */
  datatype Calls = Calls(faults: (Call, nat) -> Option<Errno>, from: nat, to: nat, admitted: bool)
  {
    /** None fails for an unknown reason. */
    ghost predicate Quiet() {
      admitted && forall c, t :: from <= t ==> faults(c, t).None?
    }

    /** No remove or close does. */
    ghost predicate Tidy() {
      forall c, t :: c in {RemoveCall, CloseCall} && from <= t ==> faults(c, t).None?
    }
  }

  ghost function CallsSince(k: Kernel, from: nat, admitted: bool): Calls
    reads k`clock
  {
    Calls(k.faults, from, k.clock, admitted)
  }

  /** A tree was started on and stopped: an exact prefix, the directories from some point on restored. */
  ghost predicate StoppedTree(s: Tree, s': Tree, calls: Calls, src: Path, dst: Path, run: TreeRun, err: Option<Error>) {
    && FileTree.Valid(s) && src in s && run.started && Leaves(s, s', src, dst, run)
    && JoinedAnswer(run.walkErr, run.chmodErr, err) && (run.chmodErr.None? <==> run.restoredFrom == 0)
    && (calls.Tidy() ==> run.left.None?)
    && (calls.admitted ==> RunAnswered(s, src, calls.faults, calls.from, calls.to, run))
  }

  /**
   * What an error of Execute says. A request that cannot be started on is refused as the file system deserves. The copy
   * of a file fails because one of its calls did; that of a tree, because a call did or something in it cannot be
   * cloned. Before that, a look may have failed.
   */
  ghost predicate Answered(s: Tree, s': Tree, calls: Calls, processDir: string, root: string, req: Request,
                           err: Error) {
    var src, dst := SourcePath(processDir, root, req), DestinationPath(processDir, root, req);
    || LookBlamed(calls.faults, calls.from, calls.to, err)
    || (if !Startable(s, processDir, root, req) then
          ResponseFromError(Some(err)) == Refusal(s, processDir, root, req)
        else if req.recursive then
          || Blamed(calls.faults, {LstatCall, MkdirCall}, calls.from, calls.to, err)
          || exists run :: StoppedTree(s, s', calls, src, dst, run, Some(err))
        else CopyAnswered(calls.faults, calls.from, calls.to, err))
  }

  /**
   * Execute, exactly. Success means the copy was made, whatever else happened; a request that cannot start changes
   * nothing; a file whose copying failed leaves nothing, if removing and closing work; a tree that failed leaves
   * nothing or an exact prefix; and every error has its reason.
   */
  ghost predicate Executed(s: Tree, s': Tree, calls: Calls, processDir: string, root: string, req: Request,
                           err: Option<Error>) {
    && (err.None? ==> CarriedOut(s, s', processDir, root, req) && WellFormed(req))
    && (err.None? && !req.recursive && calls.admitted ==> CopyWorked(calls.faults, calls.from, calls.to))
    && (!Startable(s, processDir, root, req) ==> err.Some? && s' == s)
    && (err.Some? && s' != s ==>
          if req.recursive then
            exists run ::
              StoppedTree(s, s', calls, SourcePath(processDir, root, req), DestinationPath(processDir, root, req), run,
                          err)
          else !calls.Tidy())
    && (err.Some? && calls.admitted ==> Answered(s, s', calls, processDir, root, req, err.value))
  }

  method ReflinkSingle(k: Kernel, processDir: string, root: string, req: Request) returns (err: Option<Error>)
    requires k.Valid() && RootIsPlain(k.nodes, processDir, root)
    requires ValidRequest(req).None? && !req.recursive
    modifies k`nodes, k`mine, k`clock
    ensures k.Valid() && old(k.clock) <= k.clock
    ensures Executed(old(k.nodes), k.nodes, CallsSince(k, old(k.clock), old(k.Admits())), processDir, root, req, err)
  {
    var checked := CheckRequest(k, processDir, root, req);
    if checked.Err? {
      return Some(checked.error);
    }
    var (src, info, dst) := checked.value;
    ghost var t := k.clock;
    err := ReflinkChecked(k, src, dst, info.mode);
    if err.None? && old(k.Admits()) {
      assert CopyFault(k.faults, t).None?;
    }
    if err.Some? && old(k.Admits()) {
      assert CopyFault(k.faults, t).Some? && Answers(err.value, CopyFault(k.faults, t).value);
    }
  }

  /** The end of reflinkSingle, with a regular file and a free name in hand. */
  method ReflinkChecked(k: Kernel, src: Path, dst: Path, mode: FileMode) returns (err: Option<Error>)
    requires k.Valid() && src in k.nodes && k.nodes[src].File? && CreateErrno(k.nodes, dst).None?
    modifies k`nodes, k`mine, k`clock
    ensures k.Valid() && old(k.clock) < k.clock
    ensures err.None? ==> k.nodes == old(k.nodes)[dst := CloneOf(old(k.nodes)[src], mode)]
    ensures err.Some? && k.Never({RemoveCall, CloseCall}, old(k.clock)) ==> k.nodes == old(k.nodes)
    ensures old(k.Admits()) ==>
              && (err.Some? <==> CopyFault(k.faults, old(k.clock)).Some?)
              && (err.Some? ==> Answers(err.value, CopyFault(k.faults, old(k.clock)).value))
  {
    PresentHasNoLinkAbove(k.nodes, src);
    PresentHasNoLinkAbove(k.nodes, dst);
    SuccessIsCompletion(k.nodes, k.mine, k.faults, k.clock, src, dst);
    if k.Admits() {
      CopyFaultAnswers(k.nodes, k.mine, k.faults, k.clock, src, dst);
    }
    ghost var left;
    err, left := Reflink(k, src, dst, Perm(mode));
  }

  lemma RequestPathsAreNormal(req: Request)
    requires ValidRequest(req).None?
    ensures NormalizeRelative(req.src).Ok? && NormalizeRelative(req.dst).Ok?
  {
  }

  lemma TreeIsExecuted(s: Tree, s': Tree, calls: Calls, processDir: string, root: string, req: Request, run: TreeRun,
                       err: Option<Error>)
    requires req.recursive && Startable(s, processDir, root, req)
    requires var src, dst := SourcePath(processDir, root, req), DestinationPath(processDir, root, req);
             if run.started then
               StoppedTree(s, s', calls, src, dst, run, err) && (err.None? ==> IsTreeClone(s, s', src, dst))
             else
               && err.Some? && s' == s
               && (calls.admitted ==> Blamed(calls.faults, {LstatCall, MkdirCall}, calls.from, calls.to, err.value))
    ensures Executed(s, s', calls, processDir, root, req, err)
  {
  }

  method ReflinkTreeRequest(k: Kernel, processDir: string, root: string, req: Request)
    returns (err: Option<Error>, ghost run: TreeRun)
    requires k.Valid() && RootIsPlain(k.nodes, processDir, root) && EndsIfStarted(k.nodes, processDir, root, req)
    requires ValidRequest(req).None? && req.recursive
    modifies k`nodes, k`mine, k`clock
    ensures k.Valid() && old(k.clock) <= k.clock
    ensures Executed(old(k.nodes), k.nodes, CallsSince(k, old(k.clock), old(k.Admits())), processDir, root, req, err)
    ensures !run.started ==> err.Some? && k.nodes == old(k.nodes)
    ensures run.started ==> Startable(old(k.nodes), processDir, root, req)
  {
    run := TreeRun(false, [], None, 0, None, None);
    var checked := CheckRequest(k, processDir, root, req);
    if checked.Err? {
      return Some(checked.error), run;
    }
    var (src, info, dst) := checked.value;
    err, run := ReflinkTreeChecked(k, src, dst, old(k.clock));
    TreeIsExecuted(old(k.nodes), k.nodes, CallsSince(k, old(k.clock), old(k.Admits())), processDir, root, req, run,
                   err);
  }

  /** The end of reflinkTree, with a directory and a free name in hand. */
  method ReflinkTreeChecked(k: Kernel, src: Path, dst: Path, ghost from: nat)
    returns (err: Option<Error>, ghost run: TreeRun)
    requires k.Valid() && IsDirAt(k.nodes, src) && CreateErrno(k.nodes, dst).None? && ComesToAnEnd(k.nodes, src, dst)
    requires from <= k.clock
    modifies k`nodes, k`mine, k`clock
    ensures k.Valid() && old(k.clock) <= k.clock
    ensures run.started ==>
              && StoppedTree(old(k.nodes), k.nodes, CallsSince(k, from, old(k.Admits())), src, dst, run, err)
              && (err.None? ==> IsTreeClone(old(k.nodes), k.nodes, src, dst))
    ensures !run.started ==>
              && err.Some? && k.nodes == old(k.nodes)
              && (old(k.Admits()) ==> Blamed(k.faults, {LstatCall, MkdirCall}, from, k.clock, err.value))
  {
    PresentHasNoLinkAbove(k.nodes, src);
    PresentHasNoLinkAbove(k.nodes, dst);
    err, run := ReflinkTree(k, src, dst);
    if run.started {
      RunStillAnswered(old(k.nodes), src, k.faults, old(k.clock), k.clock, from, run);
    } else if old(k.Admits()) {
      assert Blamed(k.faults, {LstatCall, MkdirCall}, old(k.clock), k.clock, err.value);
      StillBlamed(k.faults, {LstatCall, MkdirCall}, old(k.clock), k.clock, err.value, {LstatCall, MkdirCall}, from,
          k.clock);
    }
  }

  method Execute(k: Kernel, processDir: string, root: string, req: Request) returns (err: Option<Error>)
    requires k.Valid() && RootIsPlain(k.nodes, processDir, root) && EndsIfStarted(k.nodes, processDir, root, req)
    modifies k`nodes, k`mine, k`clock
    ensures k.Valid() && old(k.clock) <= k.clock
    ensures Executed(old(k.nodes), k.nodes, CallsSince(k, old(k.clock), old(k.Admits())), processDir, root, req, err)
  {
    err := ValidRequest(req);
    if err.Some? {
      return;
    }
    if req.recursive {
      ghost var run;
      err, run := ReflinkTreeRequest(k, processDir, root, req);
    } else {
      err := ReflinkSingle(k, processDir, root, req);
    }
  }

  // ---------------------------------------------------------------------------------------------
  // What this comes to
  // ---------------------------------------------------------------------------------------------

  lemma NothingToBlame(calls: Calls, kinds: set<Call>, err: Error)
    requires calls.Quiet()
    ensures !Blamed(calls.faults, kinds, calls.from, calls.to, err)
    ensures !LookBlamed(calls.faults, calls.from, calls.to, err)
    ensures !CopyAnswered(calls.faults, calls.from, calls.to, err)
  {
  }

  lemma QuietlyStopped(s: Tree, s': Tree, calls: Calls, src: Path, dst: Path, err: Option<Error>)
    requires calls.Quiet() && err.Some? && exists run :: StoppedTree(s, s', calls, src, dst, run, err)
    ensures FileTree.Valid(s) && src in s && !AllClonable(s, src)
    ensures exists p :: FirstUnclonable(s, src, p) && ResponseFromError(err) == ResponseFromError(Rejection(s[p]))
  {
    hide Leaves;
    hide ResponseFromError;
    var run :| StoppedTree(s, s', calls, src, dst, run, err);
    QuietlyAnswered(s, src, calls.faults, calls.from, calls.to, run);
    assert FirstUnclonable(s, src, EntryAt(s, src, |run.done|));
  }

  /**
   * With no call failing for an unknown reason, a request succeeds if and only if it is acceptable; one that cannot be
   * started on has its response; and a tree that holds something that cannot be cloned is answered for the first such
   * thing in walk order.
   */
  lemma QuietlyExecuted(s: Tree, s': Tree, calls: Calls, processDir: string, root: string, req: Request,
                        err: Option<Error>)
    requires FileTree.Valid(s) && Executed(s, s', calls, processDir, root, req, err) && calls.Quiet()
    ensures err.None? <==> Acceptable(s, processDir, root, req)
    ensures !Startable(s, processDir, root, req) ==> ResponseFromError(err) == Refusal(s, processDir, root, req)
    ensures Startable(s, processDir, root, req) && err.Some? ==>
              exists p :: FirstUnclonable(s, SourcePath(processDir, root, req), p)
                          && ResponseFromError(err) == ResponseFromError(Rejection(s[p]))
  {
    hide StoppedTree;
    hide Refusal;
    hide LookBlamed;
    hide CopyAnswered;
    hide Blamed;
    hide Protocol.MessageFromError;
    hide Protocol.CodeFromError;
    var src, dst := SourcePath(processDir, root, req), DestinationPath(processDir, root, req);
    if err.None? {
      if req.recursive {
        forall p | p in s && src <= p ensures Clonable(s[p]) {
          assert src + p[|src|..] == p;
        }
      }
    } else {
      NothingToBlame(calls, {LstatCall, MkdirCall}, err.value);
    }
    if err.Some? && Startable(s, processDir, root, req) {
      QuietlyStopped(s, s', calls, src, dst, err);
    }
  }

  /** The two things that can go wrong with a file that could be copied. */
  lemma CopyGoesWrong(s: Tree, s': Tree, calls: Calls, processDir: string, root: string, req: Request,
                      err: Option<Error>)
    requires Executed(s, s', calls, processDir, root, req, err) && calls.admitted
    requires Startable(s, processDir, root, req) && !req.recursive
    ensures err.None? ==> CopyWorked(calls.faults, calls.from, calls.to)
    ensures err.Some? ==>
              || LookBlamed(calls.faults, calls.from, calls.to, err.value)
              || CopyAnswered(calls.faults, calls.from, calls.to, err.value)
  {
    hide StoppedTree;
    hide CarriedOut;
    hide Refusal;
    hide LookBlamed;
    hide CopyAnswered;
    hide CopyWorked;
  }

  /**
   * If cloning is all that fails, but does so always and with one of the two error numbers that say that it is not
   * supported, a file that could be copied is answered EOPNOTSUPP.
   */
  lemma UnsupportedIsSaid(s: Tree, s': Tree, calls: Calls, processDir: string, root: string, req: Request, e: Errno,
                          err: Option<Error>)
    requires Executed(s, s', calls, processDir, root, req, err) && calls.admitted
    requires Startable(s, processDir, root, req) && !req.recursive && e in {EOPNOTSUPP, EXDEV}
    requires forall c, t :: calls.from <= t ==> calls.faults(c, t) == if c == CloneCall then Some(e) else None
    ensures ResponseFromError(err)
            == FailureResponse(EOpNotSupp, "reflink is not supported for this source and destination")
  {
    hide Executed;
    hide Startable;
    hide Protocol.MessageFromError;
    hide Protocol.CodeFromError;
    CopyGoesWrong(s, s', calls, processDir, root, req, err);
    OnlyClonesFail(calls, e);
    assert err.Some? && Answers(err.value, e);
  }

  lemma OnlyClonesFail(calls: Calls, e: Errno)
    requires forall c, t :: calls.from <= t ==> calls.faults(c, t) == if c == CloneCall then Some(e) else None
    ensures !SomeLookFailed(calls.faults, calls.from, calls.to)
    ensures forall t :: calls.from <= t ==> CopyFault(calls.faults, t) == Some(e)
  {
  }

  /**
   * Two spellings of one path are not caught by the textual test, but the request cannot start: the destination is
   * there, because the source is.
   */
  lemma SamePlaceCannotStart(s: Tree, processDir: string, root: string, req: Request)
    requires FileTree.Valid(s) && ValidRequest(req).None? && SamePlace(req.src, req.dst)
    ensures !Startable(s, processDir, root, req) && EndsIfStarted(s, processDir, root, req)
    ensures SourceFitting(s, processDir, root, req) ==>
              Refusal(s, processDir, root, req) == FailureResponse(EExist, "destination already exists")
  {
    RequestPathsAreNormal(req);
    NormalizeDecidesSamePlace(req.src, req.dst);
    if SourceFound(s, processDir, root, req.src) {
      SourceFoundIsNotRefused(s, processDir, root, req.src);
    }
  }

  /** So executing it, recursive or not, fails and changes nothing; quietly, it says that the destination exists. */
  lemma SamePlaceIsRefused(s: Tree, s': Tree, calls: Calls, processDir: string, root: string, req: Request,
                           err: Option<Error>)
    requires FileTree.Valid(s) && ValidRequest(req).None? && SamePlace(req.src, req.dst)
    requires Executed(s, s', calls, processDir, root, req, err)
    ensures EndsIfStarted(s, processDir, root, req)
    ensures err.Some? && s' == s
    ensures calls.Quiet() && SourceFitting(s, processDir, root, req) ==>
              ResponseFromError(err) == FailureResponse(EExist, "destination already exists")
  {
    SamePlaceCannotStart(s, processDir, root, req);
    if calls.Quiet() {
      QuietlyExecuted(s, s', calls, processDir, root, req, err);
    }
  }
}
