/**
 * What a finished request means when others run too. In any interleaving, with any failures: a request that reports
 * success has made exactly the copy it was asked for, and one that reports failure leaves what a failing request leaves
 * when it is alone.
 */
module Interleavings {
  import opened Wrappers
  import opened FileTree
  import opened Kernels
  import opened Reflinks
  import opened TreeImages
  import opened TreeWalks
  import opened Workers
  import opened Views
  import opened TreeProgress

  // ---------------------------------------------------------------------------------------------
  // Trees
  // ---------------------------------------------------------------------------------------------

  lemma ViewIsSeen(n0: Tree, st: System, id: nat)
    requires FileTree.Valid(n0) && Inv(n0, st) && OwnedBelow(n0, st)
    requires id < |st.workers| && st.workers[id].job.Source() in n0 && Undisturbed(st.workers[id].job.Source(), st)
    ensures Seen(n0, st.nodes, View(n0, st, id), st.workers[id].job.Source())
  {
    var src := st.workers[id].job.Source();
    forall p | p in st.nodes && src <= p ensures p in n0 {
      NothingAppears(n0, st, src, p);
    }
  }

  /** The calls that `spared` speaks of never fail for an unknown reason when worker `id` makes them. */
  ghost predicate SparedBy(n0: Tree, umask: bv9, actions: seq<Action>, id: nat, spared: Spared) {
    forall i: nat :: i < |actions| ==> SparedAt(Execution(n0, umask, actions[..i]), actions[i], id, spared)
  }

  ghost predicate SparedAt(st: System, a: Action, id: nat, spared: Spared) {
    a.Run? && a.id == id && id < |st.workers| ==> Spares(spared, st.workers[id], a.choice)
  }

  lemma SparedBefore(n0: Tree, umask: bv9, actions: seq<Action>, id: nat, spared: Spared)
    requires actions != [] && SparedBy(n0, umask, actions, id, spared)
    ensures SparedBy(n0, umask, actions[..|actions| - 1], id, spared)
    ensures SparedAt(Execution(n0, umask, actions[..|actions| - 1]), actions[|actions| - 1], id, spared)
  {
    var before := actions[..|actions| - 1];
    forall i: nat | i < |before| ensures SparedAt(Execution(n0, umask, before[..i]), before[i], id, spared) {
      assert before[..i] == actions[..i];
    }
  }

  lemma NewcomerStarts(n0: Tree, st: System, umask: bv9, a: Action, id: nat, spared: Spared)
    requires FileTree.Valid(n0) && Inv(n0, st) && |st.workers| <= id < |Next(st, umask, a).workers|
    requires TreeJob(n0, Next(st, umask, a).workers[id].job)
    ensures Progress(n0, View(n0, Next(st, umask, a), id), Next(st, umask, a).workers[id], [], n0, spared)
  {
    NewcomersView(n0, st, id);
    assert a.Arrive?;
  }

  lemma NextProgress(n0: Tree, st: System, umask: bv9, a: Action, id: nat, done: seq<Path>, base: Tree, spared: Spared)
      returns (done': seq<Path>, base': Tree)
    requires FileTree.Valid(n0) && umask & OWNER_RWX == 0 && Inv(n0, st) && OwnedBelow(n0, st)
    requires id < |st.workers| && TreeJob(n0, st.workers[id].job) && Undisturbed(st.workers[id].job.Source(), st)
    requires SparedAt(st, a, id, spared) && Progress(n0, View(n0, st, id), st.workers[id], done, base, spared)
    ensures var st' := Next(st, umask, a);
            && id < |st'.workers| && st'.workers[id].job == st.workers[id].job
            && Progress(n0, View(n0, st', id), st'.workers[id], done', base', spared)
  {
    done', base' := done, base;
    if a.Run? && a.id < |st.workers| {
      StepOnView(n0, st, umask, a.id, a.choice, id);
      if a.id == id {
        ViewIsSeen(n0, st, id);
        var w := st.workers[id];
        done', base' := OwnStep(n0, st.nodes, View(n0, st, id), w, umask, Settled(st, w, a.choice), done, base, spared);
      }
    }
  }

  /** The worker's progress in any interleaving with any failures. */
  lemma {:induction false} ProgressAlways(n0: Tree, umask: bv9, actions: seq<Action>, id: nat, spared: Spared)
      returns (done: seq<Path>, base: Tree)
    requires FileTree.Valid(n0) && umask & OWNER_RWX == 0 && SparedBy(n0, umask, actions, id, spared)
    requires var st := Execution(n0, umask, actions);
             id < |st.workers| && TreeJob(n0, st.workers[id].job) && Undisturbed(st.workers[id].job.Source(), st)
    ensures var st := Execution(n0, umask, actions); Progress(n0, View(n0, st, id), st.workers[id], done, base, spared)
    decreases |actions|
  {
    var before, a := actions[..|actions| - 1], actions[|actions| - 1];
    var st := Execution(n0, umask, before);
    InvAlways(n0, umask, before);
    OwnedBelowAlways(n0, umask, before);
    JobsStay(st, umask, a);
    SparedBefore(n0, umask, actions, id, spared);
    if id >= |st.workers| {
      NewcomerStarts(n0, st, umask, a, id, spared);
      done, base := [], n0;
    } else {
      done, base := ProgressAlways(n0, umask, before, id, spared);
      done, base := NextProgress(n0, st, umask, a, id, done, base, spared);
    }
  }

  /**
   * A recursive request that reports success, in any interleaving with any other requests and any failures, none of the
   * requests being to write below its source: under its destination stands the finished copy of every node of its
   * source, all of them its own; and it created nothing else.
   */
  lemma SuccessfulTreeIsClone(n0: Tree, umask: bv9, actions: seq<Action>, id: nat)
    requires FileTree.Valid(n0) && umask & OWNER_RWX == 0
    requires var st := Execution(n0, umask, actions);
             && id < |st.workers| && Succeeded(st.workers[id])
             && TreeJob(n0, st.workers[id].job) && Undisturbed(st.workers[id].job.Source(), st)
    ensures var st := Execution(n0, umask, actions);
            var src, dst := st.workers[id].job.Source(), st.workers[id].job.Destination();
            && (forall rel :: src + rel in n0 ==>
                  && Clonable(n0[src + rel]) && Owns(st.owner, id, dst + rel)
                  && dst + rel in st.nodes && st.nodes[dst + rel] == Finished(n0[src + rel]))
            && (forall p :: Owns(st.owner, id, p) ==> dst <= p && Origin(src, dst, p) in n0)
  {
    var done, base := ProgressAlways(n0, umask, actions, id, Spared(false, false));
    InvAlways(n0, umask, actions);
    CloneInView(n0, Execution(n0, umask, actions), id);
  }

  /**
   * A recursive request that reports failure, under the same circumstances: it made nothing, or its view holds what a
   * failing ReflinkTree leaves, the copies of a prefix of the walk and perhaps one leftover file; with every mode exact
   * if none of its chmods on directories failed for an unknown reason, and no leftover if no closing or removing did.
   */
  lemma FailedTreeIsPrefix(n0: Tree, umask: bv9, actions: seq<Action>, id: nat, spared: Spared)
    requires FileTree.Valid(n0) && umask & OWNER_RWX == 0 && SparedBy(n0, umask, actions, id, spared)
    requires var st := Execution(n0, umask, actions);
             && id < |st.workers| && Failed(st.workers[id])
             && TreeJob(n0, st.workers[id].job) && Undisturbed(st.workers[id].job.Source(), st)
    ensures var st := Execution(n0, umask, actions);
            var src, dst := st.workers[id].job.Source(), st.workers[id].job.Destination();
            || (forall p :: !Owns(st.owner, id, p))
            || exists run :: LeftBy(n0, View(n0, st, id), src, dst, run, spared)
  {
    var done, base := ProgressAlways(n0, umask, actions, id, spared);
    InvAlways(n0, umask, actions);
    var st := Execution(n0, umask, actions);
    if View(n0, st, id) == n0 {
      forall p ensures !Owns(st.owner, id, p) {
        assert p in View(n0, st, id) <==> p in n0;
      }
    }
  }

  /**
   * Entry by entry, in the file system as it then is: every copy is the worker's own, and is as `LeavesMeaning` says.
   */
  lemma FailedTreeMeaning(n0: Tree, st: System, id: nat, run: TreeRun, spared: Spared, p: Path)
    requires FileTree.Valid(n0) && Inv(n0, st) && id < |st.workers| && TreeJob(n0, st.workers[id].job)
    requires var job := st.workers[id].job;
             LeftBy(n0, View(n0, st, id), job.Source(), job.Destination(), run, spared) && p in run.done
    ensures var src, dst := st.workers[id].job.Source(), st.workers[id].job.Destination();
            && src <= p && p in n0 && Clonable(n0[p]) && (p != src ==> p != [] && Parent(p) in run.done)
            && Owns(st.owner, id, Relocate(src, dst, p)) && Relocate(src, dst, p) in st.nodes
            && (st.nodes[Relocate(src, dst, p)] == Finished(n0[p])
                || (!spared.modes && n0[p].Dir? && st.nodes[Relocate(src, dst, p)] == TEMPORARY))
  {
    var src, dst, v := st.workers[id].job.Source(), st.workers[id].job.Destination(), View(n0, st, id);
    StartsApart(n0, st.workers[id].job);
    LeavesMeaning(n0, v, src, dst, run, p);
    var t := Relocate(src, dst, p);
    RelocateOrigin(src, dst, p);
    NothingBelowAbsent(n0, dst, t);
    assert t in v && v[t] == st.nodes[t];
  }

  lemma CloneInView(n0: Tree, st: System, id: nat)
    requires FileTree.Valid(n0) && Inv(n0, st) && id < |st.workers|
    requires var job := st.workers[id].job;
             job.Destination() !in n0 && IsTreeClone(n0, View(n0, st, id), job.Source(), job.Destination())
    ensures var src, dst := st.workers[id].job.Source(), st.workers[id].job.Destination();
            && (forall rel :: src + rel in n0 ==>
                  && Clonable(n0[src + rel]) && Owns(st.owner, id, dst + rel)
                  && dst + rel in st.nodes && st.nodes[dst + rel] == Finished(n0[src + rel]))
            && (forall p :: Owns(st.owner, id, p) ==> dst <= p && Origin(src, dst, p) in n0)
  {
    var src, dst, v := st.workers[id].job.Source(), st.workers[id].job.Destination(), View(n0, st, id);
    forall rel | src + rel in n0 ensures Owns(st.owner, id, dst + rel) {
      NothingBelowAbsent(n0, dst, dst + rel);
      assert dst + rel in v;
    }
    forall p | Owns(st.owner, id, p) ensures dst <= p && Origin(src, dst, p) in n0 {
      assert p in v && p !in n0;
      OriginOfOwn(n0, v, src, dst, p);
    }
  }

  lemma OriginOfOwn(n0: Tree, v: Tree, src: Path, dst: Path, p: Path)
    requires IsTreeClone(n0, v, src, dst) && p in v && p !in n0
    ensures dst <= p && Origin(src, dst, p) in n0
  {
    if dst <= p {
      assert p == dst + p[|dst|..];
      assert dst + p[|dst|..] in v;
    }
  }

  // ---------------------------------------------------------------------------------------------
  // Single files
  // ---------------------------------------------------------------------------------------------

  /** A request for one file that was there. */
  ghost predicate FileJob(n0: Tree, job: Job) {
    !job.recursive && job.Source() in n0
  }

  ghost predicate FileProgress(n0: Tree, s: Tree, w: Worker)
    requires FileJob(n0, w.job)
  {
    var source := n0[w.job.Source()];
    match w.pc
    case JoinDst(mode) => source.File? && mode == ModeOf(source)
    case WalkDst(_, mode) => source.File? && mode == ModeOf(source)
    case StatDst(mode) => source.File? && mode == ModeOf(source)
    case JoinParent(mode) => source.File? && mode == ModeOf(source)
    case StatParent(mode) => source.File? && mode == ModeOf(source)
    case Copy(from, to, mode, at) =>
      && source.File? && from == w.job.Source() && mode == ModeOf(source)
      && (at.Cloning? || at.Chmodding? ==> to in s && s[to].File? && s[to].nlink == 1)
      && (at.Chmodding? ==> s[to].content == source.content)
      && (at == Closing(None, false) || at == ClosingSource(None) ==> to in s && s[to] == CloneOf(source, mode))
    case Done(None) =>
      source.File? && w.job.Destination() in s && s[w.job.Destination()] == CloneOf(source, ModeOf(source))
    case _ => true
  }

  lemma FileChecks(n0: Tree, s: Tree, w: Worker, umask: bv9, choice: Choice)
    requires FileJob(n0, w.job) && w.job.Source() in s && s[w.job.Source()] == n0[w.job.Source()]
    requires !w.pc.Copy? && !InTree(w.pc) && !w.pc.Done? && FileProgress(n0, s, w)
    ensures var (e, w') := WorkerStep(s, w, umask, choice); w'.job == w.job && e.Nothing? && FileProgress(n0, s, w')
  {
    if w.pc.JoinSrc? || w.pc.WalkSrc? || w.pc.StatSrc? {
      SourceOnlyLooks(s, w, choice.fault);
    } else {
      DestinationOnlyLooks(s, w, choice.fault);
    }
  }

  lemma FileCopies(n0: Tree, s: Tree, w: Worker, umask: bv9, choice: Choice)
    requires FileJob(n0, w.job) && w.job.Source() in s && s[w.job.Source()] == n0[w.job.Source()]
    requires w.pc.Copy? && w.pc.to == w.job.Destination() && CleanupMatches(w.pc.at) && FileProgress(n0, s, w)
    requires choice.bytes.None?
    ensures var (e, w') := CopyStep(s, w, umask, choice); w'.job == w.job && FileProgress(n0, Apply(s, e), w')
  {
  }

  /** The steps of others leave alone what the worker has in hand or has finished. */
  lemma OthersKeepFile(n0: Tree, st: System, j: nat, e: Effect, id: nat)
    requires Inv(n0, st) && j != id && id < |st.workers| && Legal(st.nodes, st.owner, j, e)
    requires FileJob(n0, st.workers[id].job) && FileProgress(n0, st.nodes, st.workers[id])
    ensures FileProgress(n0, Apply(st.nodes, e), st.workers[id])
  {
    assert Holding(st.nodes, st.owner, id, st.workers[id]);
  }

  lemma NextFileProgress(n0: Tree, st: System, umask: bv9, a: Action, id: nat)
    requires Inv(n0, st) && id < |st.workers| && FileJob(n0, st.workers[id].job)
    requires FileProgress(n0, st.nodes, st.workers[id])
    ensures var st' := Next(st, umask, a);
            && id < |st'.workers| && st'.workers[id].job == st.workers[id].job
            && FileProgress(n0, st'.nodes, st'.workers[id])
  {
    if a.Run? && a.id < |st.workers| {
      var w := st.workers[id];
      if a.id != id {
        StepIsLegal(st.nodes, st.owner, a.id, st.workers[a.id], umask, Settled(st, st.workers[a.id], a.choice));
        OthersKeepFile(n0, st, a.id, StepOf(st, umask, a.id, a.choice).0, id);
      } else {
        assert Holding(st.nodes, st.owner, id, w);
        if w.pc.Copy? {
          FileCopies(n0, st.nodes, w, umask, Settled(st, w, a.choice));
        } else if !w.pc.Done? {
          FileChecks(n0, st.nodes, w, umask, Settled(st, w, a.choice));
        }
      }
    }
  }

  /**
   * A request for one file that reports success, in any interleaving with any other requests and any failures: its
   * destination is the copy of its source with the source's permission bits, and its own.
   */
  lemma {:induction false} SuccessfulFileIsCopy(n0: Tree, umask: bv9, actions: seq<Action>, id: nat)
    requires FileTree.Valid(n0)
    requires var st := Execution(n0, umask, actions);
             id < |st.workers| && FileJob(n0, st.workers[id].job) && Succeeded(st.workers[id])
    ensures var st := Execution(n0, umask, actions);
            var source, dst := n0[st.workers[id].job.Source()], st.workers[id].job.Destination();
            source.File? && Owns(st.owner, id, dst) && dst in st.nodes
                && st.nodes[dst] == CloneOf(source, ModeOf(source))
  {
    FileProgressAlways(n0, umask, actions, id);
    SuccessOwnsDestination(n0, umask, actions, id);
  }

  lemma {:induction false} FileProgressAlways(n0: Tree, umask: bv9, actions: seq<Action>, id: nat)
    requires FileTree.Valid(n0)
    requires var st := Execution(n0, umask, actions); id < |st.workers| && FileJob(n0, st.workers[id].job)
    ensures var st := Execution(n0, umask, actions); FileProgress(n0, st.nodes, st.workers[id])
    decreases |actions|
  {
    var before, a := actions[..|actions| - 1], actions[|actions| - 1];
    var st := Execution(n0, umask, before);
    InvAlways(n0, umask, before);
    JobsStay(st, umask, a);
    if id < |st.workers| {
      FileProgressAlways(n0, umask, before, id);
      NextFileProgress(n0, st, umask, a, id);
    } else {
      FileStarts(n0, st, umask, a, id);
    }
  }

  lemma FileStarts(n0: Tree, st: System, umask: bv9, a: Action, id: nat)
    requires |st.workers| <= id < |Next(st, umask, a).workers| && FileJob(n0, Next(st, umask, a).workers[id].job)
    ensures FileProgress(n0, Next(st, umask, a).nodes, Next(st, umask, a).workers[id])
  {
    assert a.Arrive?;
  }

  /** The worker may still remove its file, or is done with it for good. */
  predicate KeepsFile(pc: Pc) {
    FileInHand(pc) || pc == Done(None) || (pc.Copy? && pc.at == ClosingSource(None))
  }

  /** A worker for one file owns its destination in those states, and nothing else at any time. */
  ghost predicate OwnsItsFile(owner: map<Path, nat>, id: nat, w: Worker) {
    forall p {:trigger p in owner} :: p in owner && owner[p] == id ==> p == w.job.Destination() && KeepsFile(w.pc)
  }

  lemma NextOwnsItsFile(n0: Tree, st: System, umask: bv9, a: Action, id: nat)
    requires Inv(n0, st) && id < |st.workers| && !st.workers[id].job.recursive
    requires OwnsItsFile(st.owner, id, st.workers[id])
    requires SparedAt(st, a, id, Spared(false, true))
    ensures id < |Next(st, umask, a).workers|
            && OwnsItsFile(Next(st, umask, a).owner, id, Next(st, umask, a).workers[id])
  {
    if a.Run? && a.id < |st.workers| {
      var w, choice := st.workers[a.id], Settled(st, st.workers[a.id], a.choice);
      if a.id == id {
        assert Holding(st.nodes, st.owner, id, w);
        JobStays(st.nodes, w, umask, choice);
        if w.pc.Copy? {
          CopyOwnsItsFile(st.nodes, st.owner, id, w, umask, choice);
        } else {
          ChecksOwnNothing(st.nodes, w, umask, choice);
        }
      }
    }
  }

  /** While it only looks a worker makes nothing, and does not get to keep a file. */
  lemma ChecksOwnNothing(s: Tree, w: Worker, umask: bv9, choice: Choice)
    requires !w.pc.Copy? && !InTree(w.pc)
    ensures var (e, w') := WorkerStep(s, w, umask, choice); e.Nothing? && (KeepsFile(w.pc) ==> w' == w)
  {
  }

  lemma CopyOwnsItsFile(s: Tree, owner: map<Path, nat>, id: nat, w: Worker, umask: bv9, choice: Choice)
    requires !w.job.recursive && OwnsItsFile(owner, id, w) && w.pc.Copy? && Holding(s, owner, id, w)
    requires Spares(Spared(false, true), w, choice)
    ensures var (e, w') := CopyStep(s, w, umask, choice); OwnsItsFile(Claim(owner, e, id), id, w')
  {
    var (e, w') := CopyStep(s, w, umask, choice);
    JobStays(s, w, umask, choice);
    match w.pc.at
    case Creating => assert e.Create? ==> e.path == w.job.Destination() && KeepsFile(w'.pc);
    case Removing(err) => assert e == Delete(w.job.Destination());
    case Opening => assert e.Nothing?;
    case ClosingSource(err) => assert e.Nothing? && w'.pc == Done(err);
    case _ => assert KeepsFile(w'.pc) && !e.Create? && !e.Delete?;
  }

  lemma {:induction false} OwnsItsFileAlways(n0: Tree, umask: bv9, actions: seq<Action>, id: nat)
    requires FileTree.Valid(n0) && SparedBy(n0, umask, actions, id, Spared(false, true))
    requires var st := Execution(n0, umask, actions); id < |st.workers| && !st.workers[id].job.recursive
    ensures var st := Execution(n0, umask, actions); OwnsItsFile(st.owner, id, st.workers[id])
    decreases |actions|
  {
    var before, a := actions[..|actions| - 1], actions[|actions| - 1];
    var st := Execution(n0, umask, before);
    InvAlways(n0, umask, before);
    JobsStay(st, umask, a);
    SparedBefore(n0, umask, actions, id, Spared(false, true));
    if id < |st.workers| {
      OwnsItsFileAlways(n0, umask, before, id);
      NextOwnsItsFile(n0, st, umask, a, id);
    } else {
      NobodyYet(n0, st, umask, a, id);
    }
  }

  lemma NobodyYet(n0: Tree, st: System, umask: bv9, a: Action, id: nat)
    requires Inv(n0, st) && |st.workers| <= id < |Next(st, umask, a).workers|
    ensures OwnsItsFile(Next(st, umask, a).owner, id, Next(st, umask, a).workers[id])
  {
    assert a.Arrive?;
  }

  /**
   * A request for one file that reports failure, in any interleaving with any other requests and any failures but those
   * of its own closing and removing: it leaves nothing.
   */
  lemma FailedFileLeavesNothing(n0: Tree, umask: bv9, actions: seq<Action>, id: nat)
    requires FileTree.Valid(n0) && SparedBy(n0, umask, actions, id, Spared(false, true))
    requires var st := Execution(n0, umask, actions);
             id < |st.workers| && !st.workers[id].job.recursive && Failed(st.workers[id])
    ensures var st := Execution(n0, umask, actions);
            forall p :: !Owns(st.owner, id, p)
  {
    OwnsItsFileAlways(n0, umask, actions, id);
  }
}
