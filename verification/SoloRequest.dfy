/**
 * A request from its first call to its answer, in a worker left alone with no call failing: it passes its checks
 * exactly if the request can start, is refused with the very response that Services says, and if the request is
 * acceptable it is carried out.
 */
module SoloRequests {
  import opened Wrappers
  import opened Protocol
  import opened Validate
  import opened FileTree
  import opened Kernels
  import opened Reflinks
  import opened Resolve
  import opened Services
  import opened Workers
  import opened Checks
  import opened SoloTurns
  import Paths

  /** The worker a request is given to. */
  function JobOf(processDir: string, root: string, req: Request): Job {
    Job(RootPath(processDir, root), Paths.Components(NormalizeRelative(req.src).GetOr(Paths.DOT)),
        Paths.Components(NormalizeRelative(req.dst).GetOr(Paths.DOT)), req.recursive)
  }

  /** What stands in a path's way: too many links, or the first objection. */
  ghost function Obstacle(s: Tree, root: Path, parts: seq<string>, allowMissingLeaf: bool,
                          message: string): Option<Error> {
    if Resolved(s, root, [], parts, 0).None? then Some(GaveUp(root))
        else Objection(s, root, parts, allowMissingLeaf, message)
  }

  lemma GaveUpResponse(root: Path)
    ensures ResponseFromError(Some(GaveUp(root))) == FailureResponse(EPerm, OUTSIDE)
  {
  }

  // ---------------------------------------------------------------------------------------------
  // The source
  // ---------------------------------------------------------------------------------------------

  /** What the walk down the source leads to. */
  ghost function AfterSource(s: Tree, job: Job): Pc {
    var obstacle := Obstacle(s, job.root, job.src, false, "source not found");
    if obstacle.Some? then Done(obstacle) else StatSrc
  }

  lemma {:induction false} SoloWalkSrc(s: Tree, w: Worker, umask: bv9, i: nat)
    requires FileTree.Valid(s) && w.pc == WalkSrc(i) && i < |w.job.src| && Trodden(s, w.job.root, w.job.src, i)
    requires Resolved(s, w.job.root, [], w.job.src, 0).Some?
    ensures Reaches(s, w, umask, s, w.(pc := AfterSource(s, w.job)))
    decreases |w.job.src| - i
  {
    var root, parts := w.job.root, w.job.src;
    var q := root + parts[..i + 1];
    var (s', w') := Solo(s, w, umask);
    ReachesNext(s, w, umask, s', w');
    assert parts[..|parts|] == parts;
    if q in s && !s[q].Symlink? {
      if i + 1 == |parts| {
        NoObjection(s, root, parts, false, "source not found");
      } else {
        SoloWalkSrc(s, w', umask, i + 1);
        ReachesAll(s, w, umask, s, w', s, w.(pc := AfterSource(s, w.job)));
      }
    } else {
      ObjectionAt(s, root, parts, i, false, "source not found");
    }
  }

  /** Joining and walking the source. */
  lemma SoloSource(s: Tree, job: Job, umask: bv9)
    requires FileTree.Valid(s)
    ensures Reaches(s, Worker(job, JoinSrc, [], []), umask, s, Worker(job, AfterSource(s, job), [], []))
  {
    var w := Worker(job, JoinSrc, [], []);
    var w1 := SourceStep(s, w, None);
    ReachesNext(s, w, umask, s, w1);
    if w1.pc.WalkSrc? {
      SoloWalkSrc(s, w1, umask, 0);
      ReachesAll(s, w, umask, s, w1, s, w.(pc := AfterSource(s, job)));
    }
  }

  /** Looking at the source itself. */
  lemma SoloStatSrc(s: Tree, w: Worker, umask: bv9)
    requires FileTree.Valid(s) && w.pc.StatSrc?
    ensures var src := w.job.Source();
            var (s', w') := Solo(s, w, umask);
            && s' == s && w' == w.(pc := w'.pc)
            && (src in s && SourceFits(s[src], w.job.recursive) ==> w'.pc == JoinDst(ModeOf(s[src])))
            && (src in s && !s[src].Symlink? && !SourceFits(s[src], w.job.recursive) ==>
                  Failed(w')
                      && ResponseFromError(w'.pc.result) == FailureResponse(EInval, WrongKind(s[src], w.job.recursive)))
            && (src !in s ==>
                Failed(w') && ResponseFromError(w'.pc.result) == FailureResponse(ENoEnt, "source not found"))
  {
    var src := w.job.Source();
    if src in s && !s[src].Symlink? {
      UnfitMeaning(s[src], w.job.recursive);
    }
  }

  // ---------------------------------------------------------------------------------------------
  // The destination
  // ---------------------------------------------------------------------------------------------

  const NO_PARENT := "destination parent does not exist"

  ghost function AfterDestination(s: Tree, job: Job, mode: FileMode): Pc {
    var obstacle := Obstacle(s, job.root, job.dst, true, NO_PARENT);
    if obstacle.Some? then Done(obstacle) else StatDst(mode)
  }

  lemma {:induction false} SoloWalkDst(s: Tree, w: Worker, umask: bv9, i: nat, mode: FileMode)
    requires FileTree.Valid(s) && w.pc == WalkDst(i, mode) && i < |w.job.dst| && Trodden(s, w.job.root, w.job.dst, i)
    requires Resolved(s, w.job.root, [], w.job.dst, 0).Some?
    ensures Reaches(s, w, umask, s, w.(pc := AfterDestination(s, w.job, mode)))
    decreases |w.job.dst| - i
  {
    var root, parts := w.job.root, w.job.dst;
    var q := root + parts[..i + 1];
    var w' := DestinationComponent(s, w, i, mode, None);
    ReachesNext(s, w, umask, s, w');
    assert parts[..|parts|] == parts;
    if q in s && !s[q].Symlink? {
      if i + 1 == |parts| {
        NoObjection(s, root, parts, true, NO_PARENT);
      } else {
        SoloWalkDst(s, w', umask, i + 1, mode);
        ReachesAll(s, w, umask, s, w', s, w.(pc := AfterDestination(s, w.job, mode)));
      }
    } else {
      ObjectionAt(s, root, parts, i, true, NO_PARENT);
    }
  }

  lemma SoloDestination(s: Tree, w: Worker, umask: bv9, mode: FileMode)
    requires FileTree.Valid(s) && w.pc == JoinDst(mode)
    ensures Reaches(s, w, umask, s, w.(pc := AfterDestination(s, w.job, mode)))
  {
    var w1 := DestinationStep(s, w, None);
    ReachesNext(s, w, umask, s, w1);
    if w1.pc.WalkDst? {
      SoloWalkDst(s, w1, umask, 0, mode);
      ReachesAll(s, w, umask, s, w1, s, w.(pc := AfterDestination(s, w.job, mode)));
    }
  }

  /** The answer to a destination that is no link and has none above it, but cannot be created. */
  ghost function Unavailable(s: Tree, dst: Path): Response {
    if dst in s then FailureResponse(EExist, "destination already exists")
    else if Missing(s, dst) == ENOENT then FailureResponse(ENoEnt, NO_PARENT)
    else FailureResponse(ENoEnt, "source not found")
  }

  lemma SoloStatDst(s: Tree, w: Worker, umask: bv9, mode: FileMode)
    requires FileTree.Valid(s) && w.pc == StatDst(mode)
    ensures var dst := w.job.Destination();
            var (s', w') := Solo(s, w, umask);
            && s' == s && w' == w.(pc := w'.pc)
            && (dst !in s && Missing(s, dst) == ENOENT ==> w'.pc == JoinParent(mode))
            && (dst in s || Missing(s, dst) != ENOENT ==>
                  Failed(w') && ResponseFromError(w'.pc.result) == Unavailable(s, dst))
  {
  }

  /** The destination's parent is joined; nothing is in the way of that. */
  lemma SoloJoinParent(s: Tree, w: Worker, umask: bv9, mode: FileMode)
    requires FileTree.Valid(s) && w.pc == JoinParent(mode)
    requires Paths.AllNames(w.job.dst) && LinkFree(s, w.job.root, w.job.dst)
    ensures Solo(s, w, umask) == (s, w.(pc := StatParent(mode)))
  {
    if w.job.dst != [] {
      LinkFreePrefix(s, w.job.root, w.job.dst, |w.job.dst| - 1);
    }
    NamesResolve(s, w.job.root, DirParts(w.job.dst));
  }

  lemma SoloParent(s: Tree, w: Worker, umask: bv9, mode: FileMode)
    requires FileTree.Valid(s) && w.pc == JoinParent(mode) && w.job.Destination() !in s
    requires Paths.AllNames(w.job.dst) && LinkFree(s, w.job.root, w.job.dst)
    requires Missing(s, w.job.Destination()) == ENOENT
    ensures var ready := w.job.dst != [] && CreateErrno(s, w.job.Destination()).None?;
            exists w' ::
              && Reaches(s, w, umask, s, w') && w' == w.(pc := w'.pc)
              && (ready ==> w'.pc == Onward(w.job, mode))
              && (!ready ==> Failed(w') && ResponseFromError(w'.pc.result) == FailureResponse(ENoEnt, NO_PARENT))
  {
    MissingParent(s, w.job.root, w.job.dst);
    assert w.job.DestinationDir() == w.job.root + DirParts(w.job.dst) by {
      if w.job.dst == [] {
        assert w.job.root + DirParts(w.job.dst) == w.job.root;
      }
    }
    SoloJoinParent(s, w, umask, mode);
    var w1 := w.(pc := StatParent(mode));
    ReachesNext(s, w, umask, s, w1);
    var w2 := DestinationParent(s, w1, mode, None);
    ReachesNext(s, w1, umask, s, w2);
    ReachesAll(s, w, umask, s, w1, s, w2);
  }

  /** From the destination's name to the answer about it. */
  lemma SoloFree(s: Tree, w: Worker, umask: bv9, mode: FileMode)
    requires FileTree.Valid(s) && w.pc == StatDst(mode) && Paths.AllNames(w.job.dst)
    requires LinkFree(s, w.job.root, w.job.dst)
    ensures var ready := w.job.dst != [] && CreateErrno(s, w.job.Destination()).None?;
            exists w' ::
              && Reaches(s, w, umask, s, w') && w' == w.(pc := w'.pc)
              && (ready ==> w'.pc == Onward(w.job, mode))
              && (!ready ==> Failed(w') && ResponseFromError(w'.pc.result) == Unavailable(s, w.job.Destination()))
  {
    var dst := w.job.Destination();
    SoloStatDst(s, w, umask, mode);
    var w1 := Solo(s, w, umask).1;
    ReachesNext(s, w, umask, s, w1);
    if dst !in s && Missing(s, dst) == ENOENT {
      SoloParent(s, w1, umask, mode);
      var ready := w.job.dst != [] && CreateErrno(s, dst).None?;
      var w' :| && Reaches(s, w1, umask, s, w') && w' == w1.(pc := w'.pc)
                && (ready ==> w'.pc == Onward(w.job, mode))
                && (!ready ==> Failed(w') && ResponseFromError(w'.pc.result) == FailureResponse(ENoEnt, NO_PARENT));
      ReachesAll(s, w, umask, s, w1, s, w');
    }
  }

  // ---------------------------------------------------------------------------------------------
  // All checks
  // ---------------------------------------------------------------------------------------------

  /** Where the checks of a request leave its worker. */
  ghost predicate Checked(s: Tree, processDir: string, root: string, req: Request, w: Worker) {
    var job := JobOf(processDir, root, req);
    && w == Worker(job, w.pc, [], [])
    && if Startable(s, processDir, root, req) then
         job.Source() in s && w.pc == Onward(job, ModeOf(s[job.Source()]))
       else Failed(w) && ResponseFromError(w.pc.result) == Refusal(s, processDir, root, req)
  }

  /** What a path's obstacle is answered: as a path that is refused, or because something on the way is missing. */
  lemma ObstacleAnswer(s: Tree, processDir: string, root: string, rel: string, allowMissingLeaf: bool, message: string)
    requires FileTree.Valid(s) && root != "" && NormalizeRelative(rel).Ok?
    ensures var at, parts := RootPath(processDir, root), Paths.Components(NormalizeRelative(rel).value);
            var obstacle, refusal := Obstacle(s, at, parts, allowMissingLeaf, message),
                PathRefusal(s, processDir, root, rel);
            && (refusal.Some? ==> obstacle.Some? && ResponseFromError(obstacle) == refusal.value)
            && (refusal.None? ==>
                  && LinkFree(s, at, parts) && obstacle == Objection(s, at, parts, allowMissingLeaf, message)
                  && (obstacle.Some? ==>
                        && parts != [] && at + parts !in s
                        && ResponseFromError(obstacle) ==
                             if Missing(s, FirstMissing(s, at, parts, 1)) == ENOENT then
                                 FailureResponse(ENoEnt, message)
                             else FailureResponse(ENoEnt, "source not found")))
  {
    var at, parts := RootPath(processDir, root), Paths.Components(NormalizeRelative(rel).value);
    NormalizedIsClean(rel);
    GivesUpByComponents(s, at, NormalizeRelative(rel).value);
    if GivesUp(s, at, NormalizeRelative(rel).value) {
      GaveUpResponse(at);
    } else if Objection(s, at, parts, allowMissingLeaf, message).Some? {
      ObjectionResponse(s, at, parts, allowMissingLeaf, message);
    }
  }

  lemma SourceAnswer(s: Tree, processDir: string, root: string, req: Request)
    requires FileTree.Valid(s) && RootIsPlain(s, processDir, root) && root != "" && ValidRequest(req).None?
    ensures var job := JobOf(processDir, root, req);
            var obstacle := Obstacle(s, job.root, job.src, false, "source not found");
            && job.Source() == SourcePath(processDir, root, req)
            && (obstacle.Some? ==>
                  && !SourceFitting(s, processDir, root, req)
                  && ResponseFromError(obstacle) == SourceRefusal(s, processDir, root, req))
            && (obstacle.None? ==>
                  && (SourceFound(s, processDir, root, req.src) <==> job.Source() in s)
                  && (job.Source() in s ==> !s[job.Source()].Symlink?)
                  && (job.Source() !in s ==>
                      SourceRefusal(s, processDir, root, req) == FailureResponse(ENoEnt, "source not found")))
  {
    RequestPathsAreNormal(req);
    var job := JobOf(processDir, root, req);
    var obstacle := Obstacle(s, job.root, job.src, false, "source not found");
    ObstacleAnswer(s, processDir, root, req.src, false, "source not found");
    if SourceFound(s, processDir, root, req.src) {
      SourceFoundIsNotRefused(s, processDir, root, req.src);
    }
    if obstacle.None? {
      PlainBelow(s, job.root, job.src);
    }
  }

  lemma DestinationAnswer(s: Tree, processDir: string, root: string, req: Request)
    requires FileTree.Valid(s) && RootIsPlain(s, processDir, root) && root != "" && ValidRequest(req).None?
    ensures var job := JobOf(processDir, root, req);
            var obstacle := Obstacle(s, job.root, job.dst, true, NO_PARENT);
            var ready := job.dst != [] && CreateErrno(s, job.Destination()).None?;
            && (DestinationFree(s, processDir, root, req.dst) <==> ready)
            && (obstacle.Some? ==>
                !ready && ResponseFromError(obstacle) == DestinationRefusal(s, processDir, root, req.dst))
            && (obstacle.None? && !ready ==>
                  Unavailable(s, job.Destination()) == DestinationRefusal(s, processDir, root, req.dst))
  {
    RequestPathsAreNormal(req);
    var job := JobOf(processDir, root, req);
    ObstacleAnswer(s, processDir, root, req.dst, true, NO_PARENT);
    if DestinationFree(s, processDir, root, req.dst) {
      FreeIsNotRefused(s, processDir, root, req.dst);
    }
    if job.dst == [] {
      assert job.root + job.dst[..0] == job.root && job.root + job.dst == job.root;
    }
  }

  /**
   * The checks, from the first call on: passed if and only if the request can start, else answered as Services says.
   */
  lemma SoloChecks(s: Tree, processDir: string, root: string, req: Request, umask: bv9) returns (w: Worker)
    requires FileTree.Valid(s) && RootIsPlain(s, processDir, root) && root != "" && ValidRequest(req).None?
    ensures Reaches(s, Worker(JobOf(processDir, root, req), JoinSrc, [], []), umask, s, w)
    ensures Checked(s, processDir, root, req, w)
  {
    var job := JobOf(processDir, root, req);
    var start := Worker(job, JoinSrc, [], []);
    SoloSource(s, job, umask);
    SourceAnswer(s, processDir, root, req);
    w := Worker(job, AfterSource(s, job), [], []);
    if w.pc.StatSrc? {
      var looked := w;
      SoloStatSrc(s, looked, umask);
      w := Solo(s, looked, umask).1;
      ReachesNext(s, looked, umask, s, w);
      ReachesAll(s, start, umask, s, looked, s, w);
      if w.pc.JoinDst? {
        var fitting := w;
        w := SoloRest(s, processDir, root, req, umask, fitting);
        ReachesAll(s, start, umask, s, fitting, s, w);
      }
    }
  }

  /** The checks on the destination. */
  lemma SoloRest(s: Tree, processDir: string, root: string, req: Request, umask: bv9, w: Worker) returns (w': Worker)
    requires FileTree.Valid(s) && RootIsPlain(s, processDir, root) && root != "" && ValidRequest(req).None?
    requires SourceFitting(s, processDir, root, req)
    requires var job := JobOf(processDir, root, req);
             job.Source() in s && w == Worker(job, JoinDst(ModeOf(s[job.Source()])), [], [])
    ensures Reaches(s, w, umask, s, w') && Checked(s, processDir, root, req, w')
  {
    var job := JobOf(processDir, root, req);
    var mode := ModeOf(s[job.Source()]);
    NormalizedIsClean(req.dst);
    SoloDestination(s, w, umask, mode);
    DestinationAnswer(s, processDir, root, req);
    w' := w.(pc := AfterDestination(s, job, mode));
    if w'.pc.StatDst? {
      var walked := w';
      SoloFree(s, walked, umask, mode);
      var ready := job.dst != [] && CreateErrno(s, job.Destination()).None?;
      w' :| && Reaches(s, walked, umask, s, w') && w' == walked.(pc := w'.pc)
            && (ready ==> w'.pc == Onward(job, mode))
            && (!ready ==> Failed(w') && ResponseFromError(w'.pc.result) == Unavailable(s, job.Destination()));
      ReachesAll(s, w, umask, s, walked, s, w');
    }
  }

  /** An acceptable request is carried out. */
  lemma SoloRequestIsCarriedOut(s: Tree, processDir: string, root: string, req: Request, umask: bv9)
      returns (s': Tree, w: Worker)
    requires FileTree.Valid(s) && RootIsPlain(s, processDir, root) && umask & OWNER_RWX == 0
    requires Acceptable(s, processDir, root, req) && EndsIfStarted(s, processDir, root, req)
    ensures Reaches(s, Worker(JobOf(processDir, root, req), JoinSrc, [], []), umask, s', w) && Succeeded(w)
    ensures CarriedOut(s, s', processDir, root, req)
  {
    RequestPathsAreNormal(req);
    SourceFoundIsNotRefused(s, processDir, root, req.src);
    FreeIsNotRefused(s, processDir, root, req.dst);
    var job := JobOf(processDir, root, req);
    var start := Worker(job, JoinSrc, [], []);
    var ready := SoloChecks(s, processDir, root, req, umask);
    if req.recursive {
      s', w := SoloWorkerClones(s, job, umask);
    } else {
      SoloCopy(s, ready, umask);
      s', w := s[job.Destination() := CloneOf(s[job.Source()], ready.pc.mode)], AfterCopy(ready, None);
      assert SoloSteps(s, ready, umask, 6) == (s', w);
      assert Reaches(s, ready, umask, s', w);
    }
    ReachesAll(s, start, umask, s, ready, s', w);
  }
}
