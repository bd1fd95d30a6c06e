/**
 * When a request succeeds among others: in any interleaving, whatever fails for the others, a request that could be
 * carried out at the start, and none of whose own calls fails for an unknown reason, is carried out. Nobody may be
 * asked to write below its source, and nobody else to write at, above or below its destination.
 */
module Successes {
  import opened Wrappers
  import opened Protocol
  import opened FileTree
  import opened Kernels
  import opened TreeImages
  import opened TreeWalks
  import opened Resolve
  import opened Services
  import opened Workers
  import opened Checks
  import opened Views
  import opened TreeProgress
  import opened Interleavings
  import opened WorkerTermination
  import opened SoloRequests

  /** A request that could be carried out alone. */
  ghost predicate Welcome(n0: Tree, job: Job) {
    Fit(n0, job) && (job.recursive ==> AllClonable(n0, job.Source()) && !(job.Source() < job.Destination()))
  }

  /** Nobody else is asked to write at, above or below the destination of `id`. */
  ghost predicate Unshared(st: System, id: nat)
    requires id < |st.workers|
  {
    forall j: nat :: j < |st.workers| && j != id ==>
      var d, mine := st.workers[j].job.Destination(), st.workers[id].job.Destination(); !(d <= mine) && !(mine <= d)
  }

  ghost predicate Faultless(actions: seq<Action>, id: nat) {
    forall i | 0 <= i < |actions| :: actions[i].Run? && actions[i].id == id ==> actions[i].choice.fault.None?
  }

  /** Nothing has gone wrong so far. */
  ghost predicate GoingWell(n0: Tree, w: Worker)
    requires Fit(n0, w.job)
  {
    match w.pc
    case Copy(_, _, _, at) => CopyingWell(at)
    case Restore(_, walkErr) => walkErr.None?
    case Done(result) => result.None?
    case _ => InTree(w.pc) || Checking(n0, w)
  }

  predicate CopyingWell(at: CopyPc) {
    match at
    case Closing(err, cleanup) => err.None? && !cleanup
    case Removing(_) => false
    case ClosingSource(err) => err.None?
    case _ => true
  }

  /** What is at or below the destination is the worker's own. */
  lemma BelowIsOwn(n0: Tree, st: System, id: nat, p: Path)
    requires FileTree.Valid(n0) && Inv(n0, st) && OwnedBelow(n0, st) && id < |st.workers| && Unshared(st, id)
    requires st.workers[id].job.Destination() !in n0 && st.workers[id].job.Destination() <= p && p in st.nodes
    ensures Owns(st.owner, id, p) && p in View(n0, st, id)
  {
    var mine := st.workers[id].job.Destination();
    NothingBelowAbsent(n0, mine, p);
    var j := st.owner[p];
    if j != id {
      PrefixesCompare(st.workers[j].job.Destination(), mine, p);
    }
  }

  // ---------------------------------------------------------------------------------------------
  // One call
  // ---------------------------------------------------------------------------------------------

  lemma CheckGoesWell(n0: Tree, s: Tree, w: Worker, umask: bv9, choice: Choice)
    requires FileTree.Valid(n0) && Fit(n0, w.job) && Checking(n0, w) && choice.fault.None?
    requires Grown(n0, s, w.job.Destination()) && w.job.Destination() !in s
    ensures WorkerStep(s, w, umask, choice).1.job == w.job && GoingWell(n0, WorkerStep(s, w, umask, choice).1)
  {
    CheckStep(n0, s, w, umask, choice);
  }

  /** A call in the copying of a file. */
  lemma CopyGoesWell(s: Tree, w: Worker, umask: bv9, choice: Choice)
    requires w.pc.Copy? && CopyingWell(w.pc.at) && choice.fault.None? && choice.bytes.None?
    requires w.pc.from in s && s[w.pc.from].File? && (w.pc.at.Creating? ==> CreateErrno(s, w.pc.to).None?)
    ensures var w' := CopyStep(s, w, umask, choice).1;
            w' == AfterCopy(w, None) || (w'.pc.Copy? && CopyingWell(w'.pc.at) && w'.job == w.job)
  {
  }

  lemma NextGoesWell(n0: Tree, w: Worker)
    requires Fit(n0, w.job)
    ensures GoingWell(n0, AfterCopy(w, None)) && AfterCopy(w, None).job == w.job
  {
  }

  /** Below the destination there is nothing but what the worker sees. */
  ghost predicate SeenBelow(s: Tree, v: Tree, dst: Path) {
    forall p :: p in s && dst <= p ==> p in v
  }

  /** An entry that is seen to be free is free. */
  lemma FreeInView(s: Tree, v: Tree, dst: Path, p: Path)
    requires SeenBelow(s, v, dst) && dst <= p && CreateErrno(v, p).None?
    requires forall q :: q in v ==> q in s && s[q] == v[q]
    ensures CreateErrno(s, p).None?
  {
  }

  lemma TreeCopyGoesWell(n0: Tree, s: Tree, v: Tree, w: Worker, umask: bv9, choice: Choice, done: seq<Path>, base: Tree,
                         spared: Spared)
    requires FileTree.Valid(n0) && TreeJob(n0, w.job) && Welcome(n0, w.job) && w.pc.Copy? && GoingWell(n0, w)
    requires choice.fault.None? && choice.bytes.None?
    requires Progress(n0, v, w, done, base, spared) && Seen(n0, s, v, w.job.Source())
    requires SeenBelow(s, v, w.job.Destination())
    ensures var w' := CopyStep(s, w, umask, choice).1; w'.job == w.job && GoingWell(n0, w')
  {
    if w.pc.at.Creating? {
      RelocateOrigin(w.job.Source(), w.job.Destination(), w.pc.from);
      TurnIsReady(n0, base, w.job.Source(), w.job.Destination(), done, w.pc.from, w.stack, w.directories);
      FreeInView(s, v, w.job.Destination(), w.pc.to);
    }
    CopyGoesWell(s, w, umask, choice);
    NextGoesWell(n0, w);
  }

  lemma RootGoesWell(n0: Tree, s: Tree, v: Tree, w: Worker, umask: bv9, done: seq<Path>, base: Tree, spared: Spared)
    requires FileTree.Valid(n0) && TreeJob(n0, w.job) && Welcome(n0, w.job)
    requires (w.pc.StatRoot? || w.pc.MakeRoot? || w.pc.StatWalk?)
    requires Progress(n0, v, w, done, base, spared) && Seen(n0, s, v, w.job.Source())
    requires SeenBelow(s, v, w.job.Destination())
    ensures GoingWell(n0, TreeStep(s, w, umask, None).1)
  {
    if w.pc.MakeRoot? {
      FreeInView(s, v, w.job.Destination(), w.job.Destination());
    }
  }

  lemma VisitGoesWell(n0: Tree, s: Tree, v: Tree, w: Worker, umask: bv9, done: seq<Path>, base: Tree, spared: Spared)
    requires FileTree.Valid(n0) && TreeJob(n0, w.job) && Welcome(n0, w.job) && w.pc.Visit?
    requires Progress(n0, v, w, done, base, spared) && Seen(n0, s, v, w.job.Source())
    ensures GoingWell(n0, TreeStep(s, w, umask, None).1)
  {
    TurnIsReady(n0, v, w.job.Source(), w.job.Destination(), done, w.pc.path, w.stack, w.directories);
  }

  lemma MakeGoesWell(n0: Tree, s: Tree, v: Tree, w: Worker, umask: bv9, done: seq<Path>, base: Tree, spared: Spared)
    requires FileTree.Valid(n0) && TreeJob(n0, w.job) && Welcome(n0, w.job) && w.pc.MakeDir?
    requires Progress(n0, v, w, done, base, spared) && Seen(n0, s, v, w.job.Source())
    requires SeenBelow(s, v, w.job.Destination())
    ensures GoingWell(n0, TreeStep(s, w, umask, None).1)
  {
    var src, dst, p := w.job.Source(), w.job.Destination(), w.pc.path;
    TurnIsReady(n0, v, src, dst, done, p, w.stack, w.directories);
    RelocateOrigin(src, dst, p);
    FreeInView(s, v, dst, Relocate(src, dst, p));
  }

  lemma RestoreGoesWell(n0: Tree, s: Tree, v: Tree, w: Worker, umask: bv9, done: seq<Path>, base: Tree, spared: Spared)
    requires FileTree.Valid(n0) && TreeJob(n0, w.job) && Welcome(n0, w.job) && w.pc.Restore? && GoingWell(n0, w)
    requires Progress(n0, v, w, done, base, spared) && Seen(n0, s, v, w.job.Source())
    ensures GoingWell(n0, TreeStep(s, w, umask, None).1)
  {
    if w.pc.left > 0 {
      OneIsRestored(n0, v, w, done, base, spared);
    }
    RestoreLeads(s, w, umask, None);
  }

  lemma ReadGoesWell(n0: Tree, s: Tree, v: Tree, w: Worker, umask: bv9, done: seq<Path>, base: Tree, spared: Spared)
    requires FileTree.Valid(n0) && TreeJob(n0, w.job) && Welcome(n0, w.job) && w.pc.Read?
    requires Progress(n0, v, w, done, base, spared) && Seen(n0, s, v, w.job.Source())
    ensures GoingWell(n0, TreeStep(s, w, umask, None).1)
  {
    SourceContents(n0, s, v, w.job.Source(), w.pc.dir);
  }

  /** A call in the walk. */
  lemma TreeGoesWell(n0: Tree, s: Tree, v: Tree, w: Worker, umask: bv9, done: seq<Path>, base: Tree, spared: Spared)
    requires FileTree.Valid(n0) && TreeJob(n0, w.job) && Welcome(n0, w.job) && InTree(w.pc) && GoingWell(n0, w)
    requires Progress(n0, v, w, done, base, spared) && Seen(n0, s, v, w.job.Source())
    requires SeenBelow(s, v, w.job.Destination())
    ensures TreeStep(s, w, umask, None).1.job == w.job
    ensures GoingWell(n0, TreeStep(s, w, umask, None).1)
  {
    JobOfTree(s, w, umask, None);
    match w.pc
    case Read(_) => ReadGoesWell(n0, s, v, w, umask, done, base, spared);
    case Visit(_) => VisitGoesWell(n0, s, v, w, umask, done, base, spared);
    case MakeDir(_, _) => MakeGoesWell(n0, s, v, w, umask, done, base, spared);
    case Restore(_, _) => RestoreGoesWell(n0, s, v, w, umask, done, base, spared);
    case _ => RootGoesWell(n0, s, v, w, umask, done, base, spared);
  }

  // ---------------------------------------------------------------------------------------------
  // Every call
  // ---------------------------------------------------------------------------------------------

  lemma TreeStaysWell(n0: Tree, umask: bv9, actions: seq<Action>, choice: Choice, id: nat)
    requires FileTree.Valid(n0) && umask & OWNER_RWX == 0 && choice.fault.None?
    requires var st := Execution(n0, umask, actions);
             && id < |st.workers| && st.workers[id].job.recursive && Welcome(n0, st.workers[id].job)
             && Undisturbed(st.workers[id].job.Source(), st) && Unshared(st, id) && GoingWell(n0, st.workers[id])
    ensures var st := Execution(n0, umask, actions);
            var w' := StepOf(st, umask, id, choice).1;
            w'.job == st.workers[id].job && GoingWell(n0, w')
  {
    var st := Execution(n0, umask, actions);
    var w, settled := st.workers[id], Settled(st, st.workers[id], choice);
    var v, calm := View(n0, st, id), Spared(false, false);
    InvAlways(n0, umask, actions);
    OwnedBelowAlways(n0, umask, actions);
    var done, base := ProgressAlways(n0, umask, actions, id, calm);
    ViewIsSeen(n0, st, id);
    forall p | p in st.nodes && w.job.Destination() <= p ensures p in v {
      BelowIsOwn(n0, st, id, p);
    }
    if w.pc.Copy? {
      TreeCopyGoesWell(n0, st.nodes, v, w, umask, settled, done, base, calm);
    } else if InTree(w.pc) {
      TreeGoesWell(n0, st.nodes, v, w, umask, done, base, calm);
    } else if !w.pc.Done? {
      assert w.job.Destination() !in v;
      CheckGoesWell(n0, st.nodes, w, umask, settled);
    }
  }

  lemma FileStaysWell(n0: Tree, umask: bv9, actions: seq<Action>, choice: Choice, id: nat)
    requires FileTree.Valid(n0) && umask & OWNER_RWX == 0 && choice.fault.None? && Faultless(actions, id)
    requires var st := Execution(n0, umask, actions);
             && id < |st.workers| && !st.workers[id].job.recursive && Welcome(n0, st.workers[id].job)
             && Unshared(st, id) && GoingWell(n0, st.workers[id])
    ensures var st := Execution(n0, umask, actions);
            var w' := StepOf(st, umask, id, choice).1;
            w'.job == st.workers[id].job && GoingWell(n0, w')
  {
    var st := Execution(n0, umask, actions);
    var w, settled := st.workers[id], Settled(st, st.workers[id], choice);
    InvAlways(n0, umask, actions);
    OwnedBelowAlways(n0, umask, actions);
    FileProgressAlways(n0, umask, actions, id);
    OwnsItsFileAlways(n0, umask, actions, id);
    var dst := w.job.Destination();
    assert Holding(st.nodes, st.owner, id, w);
    if dst in st.nodes {
      BelowIsOwn(n0, st, id, dst);
    }
    if w.pc.Copy? {
      CopyGoesWell(st.nodes, w, umask, settled);
      NextGoesWell(n0, w);
    } else if !w.pc.Done? {
      CheckGoesWell(n0, st.nodes, w, umask, settled);
    }
  }

  lemma {:induction false} StaysWell(n0: Tree, umask: bv9, actions: seq<Action>, id: nat)
    requires FileTree.Valid(n0) && umask & OWNER_RWX == 0 && Faultless(actions, id)
    requires var st := Execution(n0, umask, actions);
             && id < |st.workers| && Welcome(n0, st.workers[id].job) && Unshared(st, id)
             && (st.workers[id].job.recursive ==> Undisturbed(st.workers[id].job.Source(), st))
    ensures GoingWell(n0, Execution(n0, umask, actions).workers[id])
    decreases |actions|
  {
    var before, a := actions[..|actions| - 1], actions[|actions| - 1];
    var st := Execution(n0, umask, before);
    JobsStay(st, umask, a);
    if id < |st.workers| {
      StaysWell(n0, umask, before, id);
      if a.Run? && a.id == id {
        if st.workers[id].job.recursive {
          TreeStaysWell(n0, umask, before, a.choice, id);
        } else {
          FileStaysWell(n0, umask, before, a.choice, id);
        }
      }
    } else {
      assert a.Arrive?;
    }
  }

  /**
   * In any interleaving, whatever fails for the others: a request that could be carried out at the start and none of
   * whose own calls fails for an unknown reason is going well at any time, and has succeeded once it was let run often
   * enough.
   */
  lemma WelcomeRequestSucceeds(n0: Tree, umask: bv9, actions: seq<Action>, id: nat)
    requires FileTree.Valid(n0) && umask & OWNER_RWX == 0 && Faultless(actions, id)
    requires var st := Execution(n0, umask, actions);
             && id < |st.workers| && Welcome(n0, st.workers[id].job) && Unshared(st, id)
             && (st.workers[id].job.recursive ==> Undisturbed(st.workers[id].job.Source(), st))
    ensures var st := Execution(n0, umask, actions);
            && (st.workers[id].pc.Done? ==> Succeeded(st.workers[id]))
            && (Scheduled(n0, umask, actions, id) > Budget(n0, st.workers[id].job) ==> Succeeded(st.workers[id]))
  {
    StaysWell(n0, umask, actions, id);
    if Scheduled(n0, umask, actions, id) > Budget(n0, Execution(n0, umask, actions).workers[id].job) {
      EveryRequestEnds(n0, umask, actions, id);
    }
  }

  /** The requests that Services accepts, unless they are headed into their own source, are welcome. */
  lemma AcceptableIsWelcome(s: Tree, processDir: string, root: string, req: Request)
    requires FileTree.Valid(s) && Acceptable(s, processDir, root, req) && EndsIfStarted(s, processDir, root, req)
    ensures Welcome(s, JobOf(processDir, root, req))
  {
    RequestPathsAreNormal(req);
    NormalizedIsClean(req.src);
    NormalizedIsClean(req.dst);
  }
}
