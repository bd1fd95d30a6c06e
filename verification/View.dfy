/**
 * One worker's view of the file system while others run too: what was there from the start, and what the worker itself
 * created. The steps of others do not change the view, and the worker's own steps do to it what they do to the whole.
 */
module Views {
  import opened FileTree
  import opened TreeImages
  import opened Workers

  ghost function Visible(n0: Tree, s: Tree, owner: map<Path, nat>, id: nat): Tree {
    map p | p in s && (p in n0 || Owns(owner, id, p)) :: s[p]
  }

  ghost function View(n0: Tree, st: System, id: nat): Tree { Visible(n0, st.nodes, st.owner, id) }

  // ---------------------------------------------------------------------------------------------
  // Jobs stay, and what a worker owns is below its destination
  // ---------------------------------------------------------------------------------------------

  lemma JobStays(s: Tree, w: Worker, umask: bv9, choice: Choice)
    ensures WorkerStep(s, w, umask, choice).1.job == w.job
  {
    if w.pc.JoinSrc? || w.pc.WalkSrc? || w.pc.StatSrc? {
      SourceOnlyLooks(s, w, choice.fault);
    } else if !w.pc.Copy? && !InTree(w.pc) {
      DestinationOnlyLooks(s, w, choice.fault);
    }
  }

  /** No job is to write below `src`. */
  ghost predicate Undisturbed(src: Path, st: System) {
    forall j: nat :: j < |st.workers| ==> !(src < st.workers[j].job.Destination())
  }

  lemma JobsStay(st: System, umask: bv9, a: Action)
    ensures |st.workers| <= |Next(st, umask, a).workers|
    ensures forall j: nat :: j < |st.workers| ==> Next(st, umask, a).workers[j].job == st.workers[j].job
  {
    if a.Run? && a.id < |st.workers| {
      JobStays(st.nodes, st.workers[a.id], umask, Settled(st, st.workers[a.id], a.choice));
    }
  }

  /** A new file is only ever made below the worker's destination. */
  ghost predicate Aimed(w: Worker) {
    w.pc.Copy? ==> w.job.Destination() <= w.pc.to
  }

  ghost predicate OwnedBelow(n0: Tree, st: System) {
    && (forall j: nat :: j < |st.workers| ==> Aimed(st.workers[j]))
    && (forall p :: p in st.owner && st.owner[p] < |st.workers| ==>
          var d := st.workers[st.owner[p]].job.Destination(); d <= p && d !in n0)
  }

  lemma TargetIsBelow(job: Job, p: Path)
    ensures job.Destination() <= job.Target(p)
  {
  }

  /** What a step creates is below the destination, which was not there from the start. */
  lemma StepIsAimed(n0: Tree, st: System, j: nat, umask: bv9, choice: Choice)
    requires Inv(n0, st) && j < |st.workers| && Aimed(st.workers[j])
    ensures var (e, w) := WorkerStep(st.nodes, st.workers[j], umask, choice);
            && Aimed(w)
            && (e.Create? ==> w.job.Destination() <= e.path && w.job.Destination() !in n0)
  {
    var w := st.workers[j];
    JobStays(st.nodes, w, umask, choice);
    assert Holding(st.nodes, st.owner, j, w);
    if w.pc.Copy? {
      CopyIsAimed(n0, st, j, umask, choice);
    } else if InTree(w.pc) {
      TreeIsAimed(n0, st, j, umask, choice);
    } else if !(w.pc.JoinSrc? || w.pc.WalkSrc? || w.pc.StatSrc?) {
      DestinationOnlyLooks(st.nodes, w, choice.fault);
    }
  }

  lemma CopyIsAimed(n0: Tree, st: System, j: nat, umask: bv9, choice: Choice)
    requires Inv(n0, st) && j < |st.workers| && Aimed(st.workers[j]) && st.workers[j].pc.Copy?
    ensures var (e, w) := CopyStep(st.nodes, st.workers[j], umask, choice);
            && Aimed(w)
            && (e.Create? ==> st.workers[j].job.Destination() <= e.path && st.workers[j].job.Destination() !in n0)
  {
    var w := st.workers[j];
    if w.job.recursive {
      DestinationIsOwn(n0, st, j);
    }
  }

  lemma TreeIsAimed(n0: Tree, st: System, j: nat, umask: bv9, choice: Choice)
    requires Inv(n0, st) && j < |st.workers| && InTree(st.workers[j].pc)
    ensures var (e, w) := TreeStep(st.nodes, st.workers[j], umask, choice.fault);
            && Aimed(w)
            && (e.Create? ==> st.workers[j].job.Destination() <= e.path && st.workers[j].job.Destination() !in n0)
  {
    var w := st.workers[j];
    assert Holding(st.nodes, st.owner, j, w);
    if w.pc.Visit? {
      TargetIsBelow(w.job, w.pc.path);
    }
    if w.pc.MakeDir? {
      TargetIsBelow(w.job, w.pc.path);
      DestinationIsOwn(n0, st, j);
    }
  }

  /** A tree worker that has started owns its destination. */
  lemma DestinationIsOwn(n0: Tree, st: System, j: nat)
    requires Inv(n0, st) && j < |st.workers| && st.workers[j].job.recursive && TreeStarted(st.workers[j].pc)
    ensures Owns(st.owner, j, st.workers[j].job.Destination()) && st.workers[j].job.Destination() !in n0
  {
    var w := st.workers[j];
    assert Holding(st.nodes, st.owner, j, w);
    assert w.directories[0] in w.directories;
  }

  lemma NextKeepsOwnedBelow(n0: Tree, st: System, umask: bv9, a: Action)
    requires Inv(n0, st) && OwnedBelow(n0, st)
    ensures OwnedBelow(n0, Next(st, umask, a))
  {
    if a.Run? && a.id < |st.workers| {
      StepIsAimed(n0, st, a.id, umask, Settled(st, st.workers[a.id], a.choice));
      JobStays(st.nodes, st.workers[a.id], umask, Settled(st, st.workers[a.id], a.choice));
      var (e, w) := StepOf(st, umask, a.id, a.choice);
      ClaimKeepsOwnedBelow(n0, st, a.id, e, w);
    }
  }

  lemma ClaimKeepsOwnedBelow(n0: Tree, st: System, j: nat, e: Effect, w: Worker)
    requires OwnedBelow(n0, st) && j < |st.workers| && Aimed(w) && w.job == st.workers[j].job
    requires e.Create? ==> w.job.Destination() <= e.path && w.job.Destination() !in n0
    ensures OwnedBelow(n0, System(Apply(st.nodes, e), Claim(st.owner, e, j), st.workers[j := w]))
  {
  }

  lemma {:induction false} OwnedBelowAlways(n0: Tree, umask: bv9, actions: seq<Action>)
    requires FileTree.Valid(n0)
    ensures OwnedBelow(n0, Execution(n0, umask, actions))
    decreases |actions|
  {
    if actions != [] {
      var before := actions[..|actions| - 1];
      InvAlways(n0, umask, before);
      OwnedBelowAlways(n0, umask, before);
      NextKeepsOwnedBelow(n0, Execution(n0, umask, before), umask, actions[|actions| - 1]);
    }
  }

  lemma AbsentIsNotAbove(n0: Tree, d: Path, p: Path)
    requires FileTree.Valid(n0) && d !in n0 && p in n0
    ensures !(d <= p)
  {
    if d <= p {
      NothingBelowAbsent(n0, d, p);
    }
  }

  lemma PrefixesCompare(a: Path, b: Path, p: Path)
    requires a <= p && b <= p
    ensures a <= b || b <= a
  {
  }

  /** Where nobody is asked to write nothing appears. */
  lemma NothingAppears(n0: Tree, st: System, src: Path, p: Path)
    requires FileTree.Valid(n0) && src in n0 && Inv(n0, st) && OwnedBelow(n0, st) && Undisturbed(src, st)
    requires src <= p && p in st.nodes
    ensures p in n0
  {
    if p !in n0 {
      var d := st.workers[st.owner[p]].job.Destination();
      PrefixesCompare(d, src, p);
      AbsentIsNotAbove(n0, d, src);
    }
  }

  // ---------------------------------------------------------------------------------------------
  // The view
  // ---------------------------------------------------------------------------------------------

  /** An effect of another worker leaves the view alone; one of its own changes it like the whole. */
  lemma EffectOnView(n0: Tree, s: Tree, owner: map<Path, nat>, j: nat, e: Effect, id: nat)
    requires Legal(s, owner, j, e) && (forall p :: p in owner <==> p in s && p !in n0)
             && (forall p :: p in n0 ==> p in s)
    ensures j != id ==> Visible(n0, Apply(s, e), Claim(owner, e, j), id) == Visible(n0, s, owner, id)
    ensures j == id ==> Visible(n0, Apply(s, e), Claim(owner, e, j), id) == Apply(Visible(n0, s, owner, id), e)
  {
  }

  lemma StepOnView(n0: Tree, st: System, umask: bv9, j: nat, choice: Choice, id: nat)
    requires Inv(n0, st) && j < |st.workers|
    ensures var e := StepOf(st, umask, j, choice).0;
            View(n0, Next(st, umask, Run(j, choice)), id) == if j == id then Apply(View(n0, st, id), e)
                else View(n0, st, id)
  {
    StepIsLegal(st.nodes, st.owner, j, st.workers[j], umask, Settled(st, st.workers[j], choice));
    EffectOnView(n0, st.nodes, st.owner, j, StepOf(st, umask, j, choice).0, id);
  }

  lemma NewcomersView(n0: Tree, st: System, id: nat)
    requires Inv(n0, st) && id >= |st.workers|
    ensures View(n0, st, id) == n0
  {
  }
}
