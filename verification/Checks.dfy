/**
 * A worker on its way through its checks, among others, when none of its calls fails for an unknown reason: whatever is
 * added to the file system meanwhile, a request that could be carried out at the start is refused only because its
 * destination has been taken.
 */
module Checks {
  import opened Wrappers
  import opened Protocol
  import opened FileTree
  import opened Resolve
  import opened Services
  import opened Workers
  import Paths

  /** A request that can be started on: its source is of the right kind, its destination can be created. */
  ghost predicate Fit(n0: Tree, job: Job) {
    && Paths.AllNames(job.src) && Paths.AllNames(job.dst) && job.dst != []
    && job.Source() in n0 && SourceFits(n0[job.Source()], job.recursive)
    && CreateErrno(n0, job.Destination()).None?
  }

  /** Where a worker goes once its destination is found to be free. */
  function Onward(job: Job, mode: FileMode): Pc {
    if job.recursive then StatRoot else Copy(job.Source(), job.Destination(), mode, Opening)
  }

  ghost predicate Checking(n0: Tree, w: Worker)
    requires Fit(n0, w.job)
  {
    var mode := ModeOf(n0[w.job.Source()]);
    match w.pc
    case JoinSrc => true
    case WalkSrc(i) => i < |w.job.src|
    case StatSrc => true
    case JoinDst(m) => m == mode
    case WalkDst(i, m) => i < |w.job.dst| && m == mode
    case StatDst(m) => m == mode
    case JoinParent(m) => m == mode
    case StatParent(m) => m == mode
    case _ => false
  }

  /** What was there is there still, and the destination, if there is something by now, is no link. */
  ghost predicate Grown(n0: Tree, s: Tree, dst: Path) {
    && FileTree.Valid(s) && (forall p :: p in n0 ==> p in s && s[p] == n0[p])
    && (dst in s ==> !s[dst].Symlink?)
  }

  lemma SourcePrefixIsThere(n0: Tree, s: Tree, job: Job, i: nat)
    requires FileTree.Valid(n0) && Fit(n0, job) && Grown(n0, s, job.Destination()) && i < |job.src|
    ensures job.root + job.src[..i + 1] in s && !s[job.root + job.src[..i + 1]].Symlink?
  {
    var p := job.root + job.src[..i + 1];
    assert job.Source()[..|job.root| + i + 1] == p;
    if i + 1 < |job.src| {
      AncestorsAreDirs(n0, job.Source(), |job.root| + i + 1);
    } else {
      assert p == job.Source();
    }
  }

  lemma DestinationPrefixIsThere(n0: Tree, s: Tree, job: Job, i: nat)
    requires FileTree.Valid(n0) && Fit(n0, job) && Grown(n0, s, job.Destination()) && i < |job.dst|
    ensures i + 1 < |job.dst| ==> job.root + job.dst[..i + 1] in s && s[job.root + job.dst[..i + 1]].Dir?
    ensures i + 1 == |job.dst| ==> job.root + job.dst[..i + 1] == job.Destination()
    ensures job.DestinationDir() == Parent(job.Destination()) && IsDirAt(s, job.DestinationDir())
    ensures job.Destination() !in s ==> Missing(s, job.Destination()) == ENOENT
  {
    var dst := job.Destination();
    assert job.root + job.dst[..|job.dst| - 1] == Parent(dst);
    if i + 1 < |job.dst| {
      var p := job.root + job.dst[..i + 1];
      assert Parent(dst)[..|job.root| + i + 1] == p;
      if i + 1 < |job.dst| - 1 {
        AncestorsAreDirs(n0, Parent(dst), |job.root| + i + 1);
      } else {
        assert p == Parent(dst);
      }
    } else {
      assert job.dst[..i + 1] == job.dst;
    }
  }

  /** None of the three joins gives up. */
  lemma JoinsSucceed(n0: Tree, s: Tree, job: Job)
    requires FileTree.Valid(n0) && Fit(n0, job) && Grown(n0, s, job.Destination())
    ensures Resolved(s, job.root, [], job.src, 0).Some?
    ensures Resolved(s, job.root, [], job.dst, 0).Some?
    ensures Resolved(s, job.root, [], DirParts(job.dst), 0).Some?
  {
    FoundIsLinkFree(s, job.root, job.src);
    NamesResolve(s, job.root, job.src);
    var above := DirParts(job.dst);
    DestinationPrefixIsThere(n0, s, job, |job.dst| - 1);
    FoundIsLinkFree(s, job.root, above);
    assert above + [job.dst[|job.dst| - 1]] == job.dst;
    assert job.root + above + [job.dst[|job.dst| - 1]] == job.Destination();
    LinkFreeExtend(s, job.root, above, job.dst[|job.dst| - 1]);
    NamesResolve(s, job.root, above);
    NamesResolve(s, job.root, job.dst);
  }

  lemma CheckingSource(n0: Tree, s: Tree, w: Worker)
    requires FileTree.Valid(n0) && Fit(n0, w.job) && Checking(n0, w) && Grown(n0, s, w.job.Destination())
    requires w.pc.JoinSrc? || w.pc.WalkSrc? || w.pc.StatSrc?
    ensures var w' := SourceStep(s, w, None); w' == w.(pc := w'.pc) && Checking(n0, w')
  {
    match w.pc
    case JoinSrc => JoinsSucceed(n0, s, w.job);
    case WalkSrc(i) => SourcePrefixIsThere(n0, s, w.job, i);
    case StatSrc => UnfitMeaning(n0[w.job.Source()], w.job.recursive);
  }

  /** What a refusal says when the destination has been taken. */
  const TOO_LATE := NewError(EExist, "destination already exists")

  lemma CheckingComponent(n0: Tree, s: Tree, w: Worker)
    requires FileTree.Valid(n0) && Fit(n0, w.job) && Checking(n0, w) && Grown(n0, s, w.job.Destination())
    requires w.pc.WalkDst?
    ensures var w' := DestinationComponent(s, w, w.pc.i, w.pc.mode, None); w' == w.(pc := w'.pc) && Checking(n0, w')
  {
    DestinationPrefixIsThere(n0, s, w.job, w.pc.i);
  }

  lemma CheckingItself(n0: Tree, s: Tree, w: Worker)
    requires FileTree.Valid(n0) && Fit(n0, w.job) && Checking(n0, w) && Grown(n0, s, w.job.Destination())
    requires w.pc.StatDst?
    ensures var w' := DestinationItself(s, w, w.pc.mode, None);
            w' == if w.job.Destination() in s then Fail(w, TOO_LATE) else w.(pc := JoinParent(w.pc.mode))
  {
    DestinationPrefixIsThere(n0, s, w.job, |w.job.dst| - 1);
  }

  lemma CheckingParent(n0: Tree, s: Tree, w: Worker)
    requires FileTree.Valid(n0) && Fit(n0, w.job) && Checking(n0, w) && Grown(n0, s, w.job.Destination())
    requires w.pc.StatParent?
    ensures DestinationParent(s, w, w.pc.mode, None) == w.(pc := Onward(w.job, w.pc.mode))
  {
    DestinationPrefixIsThere(n0, s, w.job, |w.job.dst| - 1);
  }

  lemma CheckingDestination(n0: Tree, s: Tree, w: Worker)
    requires FileTree.Valid(n0) && Fit(n0, w.job) && Checking(n0, w) && Grown(n0, s, w.job.Destination())
    requires Resolving(w.pc)
    ensures CheckLeads(n0, s, w, DestinationStep(s, w, None))
  {
    match w.pc
    case WalkDst(_, _) => CheckingComponent(n0, s, w);
    case StatDst(_) => CheckingItself(n0, s, w);
    case StatParent(_) => CheckingParent(n0, s, w);
    case _ => JoinsSucceed(n0, s, w.job);
  }

  /** One check further, through with them, or too late. */
  ghost predicate CheckLeads(n0: Tree, s: Tree, w: Worker, w': Worker)
    requires Fit(n0, w.job)
  {
    && w' == w.(pc := w'.pc)
    && (|| Checking(n0, w')
        || w'.pc == Onward(w.job, ModeOf(n0[w.job.Source()]))
        || (w.job.Destination() in s && w' == Fail(w, TOO_LATE)))
  }

  /** One of the checks. */
  lemma CheckStep(n0: Tree, s: Tree, w: Worker, umask: bv9, choice: Choice)
    requires FileTree.Valid(n0) && Fit(n0, w.job) && Checking(n0, w) && Grown(n0, s, w.job.Destination())
    requires choice.fault.None?
    ensures var (e, w') := WorkerStep(s, w, umask, choice); e.Nothing? && CheckLeads(n0, s, w, w')
  {
    if w.pc.JoinSrc? || w.pc.WalkSrc? || w.pc.StatSrc? {
      CheckingSource(n0, s, w);
    } else {
      CheckingDestination(n0, s, w);
    }
  }
}
