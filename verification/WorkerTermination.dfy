/**
 * Every request ends: after so many of its own calls, however they are interleaved with those of others and whichever
 * of them fail, a worker has its answer. For a recursive one this needs a source that nobody is asked to write to.
 */
module WorkerTermination {
  import opened Wrappers
  import opened Protocol
  import opened FileTree
  import opened WalkOrder
  import opened Kernels
  import opened Workers
  import opened Views
  import opened TreeProgress
  import opened Interleavings
  import opened Races

  // ---------------------------------------------------------------------------------------------
  // The measure
  // ---------------------------------------------------------------------------------------------

  function UpTo(i: nat, n: nat): nat { if i < n then n - i else 0 }

  /** Calls up to the end of the checks. */
  function ChecksLeft(w: Worker): nat {
    match w.pc
    case JoinSrc => |w.job.src| + |w.job.dst| + 8
    case WalkSrc(i) => UpTo(i, |w.job.src|) + |w.job.dst| + 7
    case StatSrc => |w.job.dst| + 6
    case JoinDst(_) => |w.job.dst| + 5
    case WalkDst(i, _) => UpTo(i, |w.job.dst|) + 4
    case StatDst(_) => 3
    case JoinParent(_) => 2
    case StatParent(_) => 1
    case _ => 0
  }

  /** Calls up to the end of copying a file. */
  function CopyLeft(at: CopyPc): nat {
    match at
    case Opening => 7
    case Creating => 6
    case Cloning => 5
    case Chmodding => 4
    case Closing(_, _) => 3
    case Removing(_) => 2
    case ClosingSource(_) => 1
  }

  /** How many entries of the walk are still to come. */
  ghost function Left(n0: Tree, stack: seq<Path>): nat {
    if forall q :: q in stack ==> q in n0 then |Pending(n0, stack)| else 0
  }

  /** What is left of a tree: each entry takes at most ten calls to copy, and each directory one more to restore. */
  ghost function TreeFuel(n0: Tree, w: Worker): nat
    requires w.job.Source() in n0
  {
    var whole := 14 * |Preorder(n0, w.job.Source())|;
    match w.pc
    case Done(_) => 0
    case Restore(left, _) => left + 1
    case Copy(from, _, _, at) => 14 * Left(n0, [from] + w.stack) + |w.directories| + 2 + CopyLeft(at)
    case MakeDir(p, _) => 14 * Left(n0, [p] + w.stack) + |w.directories| + 11
    case Visit(p) => 14 * Left(n0, [p] + w.stack) + |w.directories| + 12
    case Read(dir) => 14 * Left(n0, ChildPaths(n0, dir) + w.stack) + |w.directories| + 13
    case StatWalk => 14 * Left(n0, ChildPaths(n0, w.job.Source())) + |w.directories| + 14
    case MakeRoot(_) => whole + 16
    case StatRoot => whole + 17
    case _ => whole + 18 + ChecksLeft(w)
  }

  ghost function Fuel(n0: Tree, w: Worker): nat
    requires w.job.recursive ==> w.job.Source() in n0
  {
    if w.job.recursive then TreeFuel(n0, w)
    else if w.pc.Done? then 0
    else if w.pc.Copy? then CopyLeft(w.pc.at)
    else 8 + ChecksLeft(w)
  }

  /** How many calls a request can make. */
  ghost function Budget(n0: Tree, job: Job): nat
    requires job.recursive ==> job.Source() in n0
  {
    Fuel(n0, Worker(job, JoinSrc, [], []))
  }

  // ---------------------------------------------------------------------------------------------
  // Each call uses some of it up
  // ---------------------------------------------------------------------------------------------

  lemma SourceComponentUsesUp(s: Tree, w: Worker, i: nat, fault: Option<Errno>)
    requires i < |w.job.src| && w.pc == WalkSrc(i)
    ensures ChecksLeft(SourceComponent(s, w, i, fault)) < ChecksLeft(w)
  {
  }

  lemma SourceItselfUsesUp(s: Tree, w: Worker, fault: Option<Errno>)
    ensures ChecksLeft(SourceItself(s, w, fault)) <= |w.job.dst| + 5
  {
  }

  lemma SourceUsesUp(s: Tree, w: Worker, fault: Option<Errno>)
    requires w.pc.JoinSrc? || w.pc.WalkSrc? || w.pc.StatSrc?
    ensures ChecksLeft(SourceStep(s, w, fault)) < ChecksLeft(w)
  {
    match w.pc
    case WalkSrc(i) => if i < |w.job.src| { SourceComponentUsesUp(s, w, i, fault); }
    case StatSrc => SourceItselfUsesUp(s, w, fault);
    case _ =>
  }

  lemma ComponentUsesUp(s: Tree, w: Worker, i: nat, mode: FileMode, fault: Option<Errno>)
    requires i < |w.job.dst| && w.pc == WalkDst(i, mode)
    ensures ChecksLeft(DestinationComponent(s, w, i, mode, fault)) < ChecksLeft(w)
  {
  }

  lemma ItselfUsesUp(s: Tree, w: Worker, mode: FileMode, fault: Option<Errno>)
    ensures ChecksLeft(DestinationItself(s, w, mode, fault)) <= 2
  {
  }

  lemma ParentUsesUp(s: Tree, w: Worker, mode: FileMode, fault: Option<Errno>)
    ensures ChecksLeft(DestinationParent(s, w, mode, fault)) == 0
  {
    ParentLeads(s, w, mode, fault);
  }

  lemma DestinationUsesUp(s: Tree, w: Worker, fault: Option<Errno>)
    requires Resolving(w.pc)
    ensures ChecksLeft(DestinationStep(s, w, fault)) < ChecksLeft(w)
  {
    match w.pc
    case WalkDst(i, mode) => if i < |w.job.dst| { ComponentUsesUp(s, w, i, mode, fault); }
    case StatDst(mode) => ItselfUsesUp(s, w, mode, fault);
    case StatParent(mode) => ParentUsesUp(s, w, mode, fault);
    case _ =>
  }

  lemma FileCopyUsesUp(s: Tree, w: Worker, umask: bv9, choice: Choice)
    requires w.pc.Copy? && !w.job.recursive
    ensures var w' := CopyStep(s, w, umask, choice).1;
            && w'.job == w.job
            && (w'.pc.Done? || (w'.pc.Copy? && CopyLeft(w'.pc.at) < CopyLeft(w.pc.at)))
  {
  }

  lemma FileUsesUp(n0: Tree, s: Tree, w: Worker, umask: bv9, choice: Choice)
    requires !w.job.recursive && !InTree(w.pc) && !w.pc.Done?
    ensures WorkerStep(s, w, umask, choice).1.job == w.job
    ensures Fuel(n0, WorkerStep(s, w, umask, choice).1) < Fuel(n0, w)
  {
    if w.pc.Copy? {
      FileCopyUsesUp(s, w, umask, choice);
    } else if w.pc.JoinSrc? || w.pc.WalkSrc? || w.pc.StatSrc? {
      SourceOnlyLooks(s, w, choice.fault);
      SourceUsesUp(s, w, choice.fault);
    } else {
      DestinationOnlyLooks(s, w, choice.fault);
      DestinationUsesUp(s, w, choice.fault);
    }
  }

  /** A finished entry is one less to come. */
  lemma OneLess(n0: Tree, p: Path, rest: seq<Path>)
    requires p in n0 && forall q :: q in rest ==> q in n0
    ensures Left(n0, [p] + rest) == 1 + Left(n0, ChildPaths(n0, p) + rest)
  {
    PendingStep(n0, p, rest);
  }

  lemma AdvanceUsesUp(n0: Tree, w: Worker, stack: seq<Path>)
    requires w.job.Source() in n0
    ensures TreeFuel(n0, AdvanceTo(w, stack)) <= 14 * Left(n0, stack) + |w.directories| + 12
  {
    if stack != [] {
      assert [stack[0]] + stack[1..] == stack;
    }
  }

  lemma StackIsOld(n0: Tree, v: Tree, w: Worker, done: seq<Path>, p: Path)
    requires FileTree.Valid(n0) && TreeJob(n0, w.job) && Ready(n0, v, w, done, [p] + w.stack)
    ensures p in n0 && forall q :: q in w.stack ==> q in n0
  {
    assert p in [p] + w.stack;
    assert forall q :: q in w.stack ==> q in [p] + w.stack;
  }

  /** A call in the middle of a copy brings it nearer its end, stops the walk, or finishes the entry. */
  lemma CopyAdvances(s: Tree, w: Worker, umask: bv9, choice: Choice)
    requires w.pc.Copy? && w.job.recursive
    ensures var w' := CopyStep(s, w, umask, choice).1;
            || (CopyMoved(w, w') && CopyLeft(w'.pc.at) < CopyLeft(w.pc.at))
            || (w'.pc.Restore? && w' == w.(pc := Restore(|w.directories|, w'.pc.walkErr)))
            || (w.pc.at == ClosingSource(None) && w' == AdvanceTo(w, w.stack))
  {
  }

  lemma CopyUsesUp(n0: Tree, s: Tree, v: Tree, w: Worker, umask: bv9, choice: Choice, done: seq<Path>, base: Tree,
                   spared: Spared)
    requires FileTree.Valid(n0) && TreeJob(n0, w.job) && w.pc.Copy? && Filling(n0, v, w, done, base, spared)
    ensures CopyStep(s, w, umask, choice).1.job == w.job
    ensures TreeFuel(n0, CopyStep(s, w, umask, choice).1) < TreeFuel(n0, w)
  {
    var w' := CopyStep(s, w, umask, choice).1;
    CopyAdvances(s, w, umask, choice);
    if w.pc.at == ClosingSource(None) && w' == AdvanceTo(w, w.stack) {
      FinishUsesUp(n0, base, w, done);
    } else {
      MovedUsesUp(n0, w, w');
    }
  }

  lemma MovedUsesUp(n0: Tree, w: Worker, w': Worker)
    requires w.job.Source() in n0 && w.pc.Copy?
    requires || (CopyMoved(w, w') && CopyLeft(w'.pc.at) < CopyLeft(w.pc.at))
             || (w'.pc.Restore? && w' == w.(pc := Restore(|w.directories|, w'.pc.walkErr)))
    ensures w'.job == w.job && TreeFuel(n0, w') < TreeFuel(n0, w)
  {
  }

  lemma FinishUsesUp(n0: Tree, base: Tree, w: Worker, done: seq<Path>)
    requires FileTree.Valid(n0) && TreeJob(n0, w.job) && w.pc.Copy? && Ready(n0, base, w, done, [w.pc.from] + w.stack)
    requires w.pc.from in n0 && n0[w.pc.from].File?
    ensures TreeFuel(n0, AdvanceTo(w, w.stack)) < TreeFuel(n0, w)
  {
    StackIsOld(n0, base, w, done, w.pc.from);
    OneLess(n0, w.pc.from, w.stack);
    OnlyDirectoriesHaveContents(n0, w.pc.from);
    assert [] + w.stack == w.stack;
    AdvanceUsesUp(n0, w, w.stack);
  }

  /** What the calls of the walk lead to, as far as the measure is concerned. */
  lemma ReadLeads(s: Tree, w: Worker, umask: bv9, fault: Option<Errno>)
    requires w.pc.Read?
    ensures var w' := TreeStep(s, w, umask, fault).1;
            || (w'.pc.Restore? && w' == w.(pc := Restore(|w.directories|, w'.pc.walkErr)))
            || w' == AdvanceTo(w, ChildPaths(s, w.pc.dir) + w.stack)
  {
  }

  lemma MakingLeads(s: Tree, w: Worker, umask: bv9, fault: Option<Errno>)
    requires w.pc.MakeDir? || w.pc.MakeRoot?
    ensures var w' := TreeStep(s, w, umask, fault).1;
            && w'.job == w.job && w'.stack == w.stack
            && (w.pc.MakeRoot? ==> w'.pc.Done? || (w'.pc.StatWalk? && |w'.directories| == 1))
            && (w.pc.MakeDir? ==>
                  || (w'.pc.Restore? && w'.pc.left == |w.directories|)
                  || (w'.pc == Read(w.pc.path) && |w'.directories| == |w.directories| + 1))
  {
  }

  lemma StatLeads(s: Tree, w: Worker, umask: bv9, fault: Option<Errno>)
    requires w.pc.StatRoot? || w.pc.StatWalk?
    ensures var w' := TreeStep(s, w, umask, fault).1;
            && w' == w.(pc := w'.pc)
            && (w.pc.StatRoot? ==> w'.pc.Done? || w'.pc.MakeRoot?)
            && (w.pc.StatWalk? ==> (w'.pc.Restore? && w'.pc.left == |w.directories|) || w'.pc == Read(w.job.Source()))
  {
  }

  lemma StoppingSpends(n0: Tree, w: Worker, walkErr: Option<Error>)
    requires w.job.recursive && w.job.Source() in n0 && w.pc.Read?
    ensures TreeFuel(n0, w.(pc := Restore(|w.directories|, walkErr))) < TreeFuel(n0, w)
  {
  }

  lemma AdvancingSpends(n0: Tree, w: Worker)
    requires w.job.recursive && w.job.Source() in n0 && w.pc.Read?
    ensures TreeFuel(n0, AdvanceTo(w, ChildPaths(n0, w.pc.dir) + w.stack)) < TreeFuel(n0, w)
  {
    AdvanceUsesUp(n0, w, ChildPaths(n0, w.pc.dir) + w.stack);
  }

  lemma ReadSpends(n0: Tree, w: Worker, w': Worker)
    requires w.job.recursive && w.job.Source() in n0 && w.pc.Read?
    requires || (w'.pc.Restore? && w' == w.(pc := Restore(|w.directories|, w'.pc.walkErr)))
             || w' == AdvanceTo(w, ChildPaths(n0, w.pc.dir) + w.stack)
    ensures w'.job == w.job && TreeFuel(n0, w') < TreeFuel(n0, w)
  {
    if w' == AdvanceTo(w, ChildPaths(n0, w.pc.dir) + w.stack) {
      AdvancingSpends(n0, w);
    } else {
      StoppingSpends(n0, w, w'.pc.walkErr);
    }
  }

  lemma ReadUsesUp(n0: Tree, s: Tree, v: Tree, w: Worker, umask: bv9, fault: Option<Errno>)
    requires w.job.recursive && w.job.Source() in n0 && w.pc.Read? && w.job.Source() <= w.pc.dir
    requires IsDirAt(n0, w.pc.dir)
    requires Seen(n0, s, v, w.job.Source())
    ensures TreeStep(s, w, umask, fault).1.job == w.job
    ensures TreeFuel(n0, TreeStep(s, w, umask, fault).1) < TreeFuel(n0, w)
  {
    ReadLeads(s, w, umask, fault);
    SourceContents(n0, s, v, w.job.Source(), w.pc.dir);
    ReadSpends(n0, w, TreeStep(s, w, umask, fault).1);
  }

  lemma RootUsesUp(n0: Tree, s: Tree, w: Worker, umask: bv9, fault: Option<Errno>)
    requires w.job.recursive && w.job.Source() in n0 && w.pc.MakeRoot?
    ensures TreeStep(s, w, umask, fault).1.job == w.job
    ensures TreeFuel(n0, TreeStep(s, w, umask, fault).1) < TreeFuel(n0, w)
  {
    MakingLeads(s, w, umask, fault);
    PreorderIsHeadThenPending(n0, w.job.Source());
    assert Left(n0, ChildPaths(n0, w.job.Source())) == |Preorder(n0, w.job.Source())| - 1;
  }

  lemma DirectoryUsesUp(n0: Tree, s: Tree, w: Worker, umask: bv9, fault: Option<Errno>)
    requires w.job.recursive && w.job.Source() in n0 && w.pc.MakeDir? && w.pc.path in n0
    requires forall q :: q in w.stack ==> q in n0
    ensures TreeStep(s, w, umask, fault).1.job == w.job
    ensures TreeFuel(n0, TreeStep(s, w, umask, fault).1) < TreeFuel(n0, w)
  {
    MakingLeads(s, w, umask, fault);
    OneLess(n0, w.pc.path, w.stack);
  }

  lemma StatUsesUp(n0: Tree, s: Tree, w: Worker, umask: bv9, fault: Option<Errno>)
    requires w.job.recursive && w.job.Source() in n0 && w.stack == [] && (w.pc.StatRoot? || w.pc.StatWalk?)
    ensures TreeStep(s, w, umask, fault).1.job == w.job
    ensures TreeFuel(n0, TreeStep(s, w, umask, fault).1) < TreeFuel(n0, w)
  {
    StatLeads(s, w, umask, fault);
    assert ChildPaths(n0, w.job.Source()) + w.stack == ChildPaths(n0, w.job.Source());
  }

  lemma VisitUsesUp(n0: Tree, s: Tree, w: Worker, umask: bv9, fault: Option<Errno>)
    requires w.job.recursive && w.job.Source() in n0 && w.pc.Visit? && w.pc.path in s
    ensures TreeStep(s, w, umask, fault).1.job == w.job
    ensures TreeFuel(n0, TreeStep(s, w, umask, fault).1) < TreeFuel(n0, w)
  {
    VisitLeads(s, w, umask, fault);
  }

  lemma RestoreUsesUp(n0: Tree, s: Tree, w: Worker, umask: bv9, fault: Option<Errno>)
    requires w.job.recursive && w.job.Source() in n0 && w.pc.Restore?
    ensures TreeStep(s, w, umask, fault).1.job == w.job
    ensures TreeFuel(n0, TreeStep(s, w, umask, fault).1) < TreeFuel(n0, w)
  {
  }

  lemma WalkUsesUp(n0: Tree, s: Tree, v: Tree, w: Worker, umask: bv9, fault: Option<Errno>, done: seq<Path>, base: Tree,
                   spared: Spared)
    requires FileTree.Valid(n0) && TreeJob(n0, w.job) && InTree(w.pc) && Progress(n0, v, w, done, base, spared)
    requires Seen(n0, s, v, w.job.Source())
    ensures TreeStep(s, w, umask, fault).1.job == w.job
    ensures TreeFuel(n0, TreeStep(s, w, umask, fault).1) < TreeFuel(n0, w)
  {
    match w.pc
    case Read(_) => ReadUsesUp(n0, s, v, w, umask, fault);
    case MakeDir(p, _) =>
      StackIsOld(n0, v, w, done, p);
      DirectoryUsesUp(n0, s, w, umask, fault);
    case MakeRoot(_) => RootUsesUp(n0, s, w, umask, fault);
    case Visit(p) =>
      StackIsOld(n0, v, w, done, p);
      VisitUsesUp(n0, s, w, umask, fault);
    case Restore(_, _) => RestoreUsesUp(n0, s, w, umask, fault);
    case _ => StatUsesUp(n0, s, w, umask, fault);
  }

  lemma ChecksUseUp(n0: Tree, s: Tree, w: Worker, umask: bv9, choice: Choice)
    requires w.job.recursive && w.job.Source() in n0 && !w.pc.Copy? && !InTree(w.pc) && !w.pc.Done?
    ensures WorkerStep(s, w, umask, choice).1.job == w.job
    ensures TreeFuel(n0, WorkerStep(s, w, umask, choice).1) < TreeFuel(n0, w)
  {
    if w.pc.JoinSrc? || w.pc.WalkSrc? || w.pc.StatSrc? {
      SourceOnlyLooks(s, w, choice.fault);
      SourceUsesUp(s, w, choice.fault);
    } else {
      DestinationOnlyLooks(s, w, choice.fault);
      DestinationUsesUp(s, w, choice.fault);
    }
  }

  /** Each call of a recursive worker uses some of its fuel up. */
  lemma TreeUsesUp(n0: Tree, s: Tree, v: Tree, w: Worker, umask: bv9, choice: Choice, done: seq<Path>, base: Tree,
                   spared: Spared)
    requires FileTree.Valid(n0) && TreeJob(n0, w.job) && !w.pc.Done? && Progress(n0, v, w, done, base, spared)
    requires Seen(n0, s, v, w.job.Source())
    ensures WorkerStep(s, w, umask, choice).1.job == w.job
    ensures TreeFuel(n0, WorkerStep(s, w, umask, choice).1) < TreeFuel(n0, w)
  {
    if w.pc.Copy? {
      CopyUsesUp(n0, s, v, w, umask, choice, done, base, spared);
    } else if InTree(w.pc) {
      WalkUsesUp(n0, s, v, w, umask, choice.fault, done, base, spared);
    } else {
      ChecksUseUp(n0, s, w, umask, choice);
    }
  }

  // ---------------------------------------------------------------------------------------------
  // Whole runs
  // ---------------------------------------------------------------------------------------------

  /** How often worker `id` was let run. */
  ghost function Scheduled(n0: Tree, umask: bv9, actions: seq<Action>, id: nat): nat {
    if actions == [] then 0
    else
      var before, a := actions[..|actions| - 1], actions[|actions| - 1];
      Scheduled(n0, umask, before, id)
      + if a.Run? && a.id == id && id < |Execution(n0, umask, before).workers| then 1 else 0
  }

  /** A request whose end is promised: for one file, or for a tree that nobody is asked to write to. */
  ghost predicate Endable(n0: Tree, st: System, id: nat)
    requires id < |st.workers|
  {
    var job := st.workers[id].job;
    job.recursive ==> TreeJob(n0, job) && Undisturbed(job.Source(), st)
  }

  lemma NextUsesUp(n0: Tree, umask: bv9, actions: seq<Action>, a: Action, id: nat)
    requires FileTree.Valid(n0) && umask & OWNER_RWX == 0
    requires var st := Execution(n0, umask, actions);
             id < |st.workers| && Endable(n0, st, id) && a.Run? && a.id == id && !st.workers[id].pc.Done?
    ensures var st := Execution(n0, umask, actions);
            var st' := Next(st, umask, a);
            && st'.workers[id].job == st.workers[id].job && Fuel(n0, st'.workers[id]) < Fuel(n0, st.workers[id])
  {
    var st := Execution(n0, umask, actions);
    var w, choice := st.workers[id], Settled(st, st.workers[id], a.choice);
    InvAlways(n0, umask, actions);
    JobStays(st.nodes, w, umask, choice);
    if w.job.recursive {
      var calm := Spared(false, false);
      OwnedBelowAlways(n0, umask, actions);
      var done, base := ProgressAlways(n0, umask, actions, id, calm);
      ViewIsSeen(n0, st, id);
      TreeUsesUp(n0, st.nodes, View(n0, st, id), w, umask, choice, done, base, calm);
    } else {
      assert Holding(st.nodes, st.owner, id, w);
      FileUsesUp(n0, st.nodes, w, umask, choice);
    }
  }

  lemma DoneStays(s: Tree, w: Worker, umask: bv9, choice: Choice)
    requires w.pc.Done?
    ensures WorkerStep(s, w, umask, choice) == (Nothing, w)
  {
  }

  lemma {:induction false} NotScheduledYet(n0: Tree, umask: bv9, actions: seq<Action>, id: nat)
    requires |Execution(n0, umask, actions).workers| <= id
    ensures Scheduled(n0, umask, actions, id) == 0
    decreases |actions|
  {
    if actions != [] {
      var before := actions[..|actions| - 1];
      JobsStay(Execution(n0, umask, before), umask, actions[|actions| - 1]);
      NotScheduledYet(n0, umask, before, id);
    }
  }

  /** One more action. */
  lemma NextWithinBudget(n0: Tree, umask: bv9, actions: seq<Action>, a: Action, id: nat)
    requires FileTree.Valid(n0) && umask & OWNER_RWX == 0
    requires var st := Execution(n0, umask, actions);
             id < |st.workers| && Endable(n0, st, id) && !Next(st, umask, a).workers[id].pc.Done?
    ensures var st := Execution(n0, umask, actions);
            var st' := Next(st, umask, a);
            && !st.workers[id].pc.Done? && st'.workers[id].job == st.workers[id].job
            && Fuel(n0, st'.workers[id]) + (if a.Run? && a.id == id then 1 else 0) <= Fuel(n0, st.workers[id])
  {
    var st := Execution(n0, umask, actions);
    JobsStay(st, umask, a);
    if a.Run? && a.id == id {
      if st.workers[id].pc.Done? {
        DoneStays(st.nodes, st.workers[id], umask, Settled(st, st.workers[id], a.choice));
      } else {
        NextUsesUp(n0, umask, actions, a, id);
      }
    }
  }

  /** A worker that just arrived has its whole budget. */
  lemma NewcomerWithinBudget(n0: Tree, umask: bv9, actions: seq<Action>, a: Action, id: nat)
    requires var st := Execution(n0, umask, actions); |st.workers| <= id < |Next(st, umask, a).workers|
    ensures var st := Execution(n0, umask, actions);
            var w := Next(st, umask, a).workers[id];
            w == Worker(w.job, JoinSrc, [], []) && Scheduled(n0, umask, actions, id) == 0 && a.Arrive?
  {
    assert a.Arrive?;
    NotScheduledYet(n0, umask, actions, id);
  }

  lemma ScheduledStep(n0: Tree, umask: bv9, actions: seq<Action>, id: nat)
    requires actions != []
    ensures var before, a := actions[..|actions| - 1], actions[|actions| - 1];
            && Scheduled(n0, umask, actions, id)
               == Scheduled(n0, umask, before, id)
                  + (if a.Run? && a.id == id && id < |Execution(n0, umask, before).workers| then 1 else 0)
            && Execution(n0, umask, actions) == Next(Execution(n0, umask, before), umask, a)
  {
  }

  /** As long as a worker has no answer, its turns so far and what it can still do are within its budget. */
  lemma {:induction false} WithinBudget(n0: Tree, umask: bv9, actions: seq<Action>, id: nat, st: System)
    requires FileTree.Valid(n0) && umask & OWNER_RWX == 0 && st == Execution(n0, umask, actions)
    requires id < |st.workers| && Endable(n0, st, id) && !st.workers[id].pc.Done?
    ensures Scheduled(n0, umask, actions, id) + Fuel(n0, st.workers[id]) <= Budget(n0, st.workers[id].job)
    decreases |actions|
  {
    assert actions != [];
    var before, a := actions[..|actions| - 1], actions[|actions| - 1];
    var st0 := Execution(n0, umask, before);
    ScheduledStep(n0, umask, actions, id);
    if id >= |st0.workers| {
      NewcomerWithinBudget(n0, umask, before, a, id);
    } else {
      EndableBefore(n0, st0, umask, a, id);
      NextWithinBudget(n0, umask, before, a, id);
      WithinBudget(n0, umask, before, id, st0);
    }
  }

  lemma EndableBefore(n0: Tree, st: System, umask: bv9, a: Action, id: nat)
    requires id < |st.workers|
    ensures id < |Next(st, umask, a).workers| && Next(st, umask, a).workers[id].job == st.workers[id].job
    ensures Endable(n0, Next(st, umask, a), id) ==> Endable(n0, st, id)
  {
    JobsStay(st, umask, a);
  }

  /** In any interleaving, with any failures, a request that was let run more often than its budget has its answer. */
  lemma EveryRequestEnds(n0: Tree, umask: bv9, actions: seq<Action>, id: nat)
    requires FileTree.Valid(n0) && umask & OWNER_RWX == 0
    requires id < |Execution(n0, umask, actions).workers| && Endable(n0, Execution(n0, umask, actions), id)
    requires Scheduled(n0, umask, actions, id) > Budget(n0, Execution(n0, umask, actions).workers[id].job)
    ensures Execution(n0, umask, actions).workers[id].pc.Done?
  {
    if !Execution(n0, umask, actions).workers[id].pc.Done? {
      WithinBudget(n0, umask, actions, id, Execution(n0, umask, actions));
    }
  }

  /** So a race is decided once every contender was let run often enough. */
  lemma RaceIsDecided(n0: Tree, dst: Path, umask: bv9, actions: seq<Action>) returns (winner: nat)
    requires FileTree.Valid(n0) && umask & OWNER_RWX == 0
             && forall i | 0 <= i < |actions| :: RaceAction(n0, dst, actions[i])
    requires var st := Execution(n0, umask, actions);
             && st.workers != []
             && forall id: nat :: id < |st.workers| ==>
                  !st.workers[id].job.recursive && Scheduled(n0, umask, actions, id) > Budget(n0, st.workers[id].job)
    ensures var st := Execution(n0, umask, actions);
            && winner < |st.workers| && Succeeded(st.workers[winner])
            && forall id: nat :: id < |st.workers| && id != winner ==>
                 Failed(st.workers[id]) && ResponseFromError(st.workers[id].pc.result) == TAKEN
  {
    forall id: nat | id < |Execution(n0, umask, actions).workers|
      ensures Execution(n0, umask, actions).workers[id].pc.Done?
    {
      EveryRequestEnds(n0, umask, actions, id);
    }
    winner := ExactlyOneWins(n0, dst, umask, actions);
  }
}
