/**
 * Several single-file requests for one destination, at once, when no call fails for an unknown reason.
 */
module Races {
  import opened Wrappers
  import opened Protocol
  import opened FileTree
  import opened Kernels
  import opened Reflinks
  import opened Workers
  import opened Checks

  /** A single-file request that could be carried out alone: its source can be cloned, its destination created. */
  ghost predicate Contender(n0: Tree, dst: Path, job: Job) {
    !job.recursive && job.Destination() == dst && Fit(n0, job)
  }

  /** The actions of a race: contenders arrive at any time, and no call fails for an unknown reason. */
  ghost predicate RaceAction(n0: Tree, dst: Path, a: Action) {
    match a
    case Arrive(job) => Contender(n0, dst, job)
    case Run(_, choice) => choice.fault.None?
  }

  const TAKEN := FailureResponse(EExist, "destination already exists")

  /** Still on the way to the exclusive create. */
  ghost predicate Running(n0: Tree, dst: Path, w: Worker)
    requires Contender(n0, dst, w.job)
  {
    || Checking(n0, w)
    || (w.pc.Copy? && w.pc == Copy(w.job.Source(), dst, ModeOf(n0[w.job.Source()]), w.pc.at)
        && (w.pc.at.Opening? || w.pc.at.Creating?))
  }

  /** Came too late, and has or will have the one answer for that. */
  ghost predicate Beaten(w: Worker) {
    match w.pc
    case Copy(_, _, _, ClosingSource(Some(e))) => !w.job.recursive && ResponseFromError(Some(e)) == TAKEN
    case Done(Some(e)) => ResponseFromError(Some(e)) == TAKEN
    case _ => false
  }

  /** Made the destination; `n` is the file as it should be by now. */
  ghost predicate Winning(n0: Tree, dst: Path, w: Worker, n: Node)
    requires Contender(n0, dst, w.job)
  {
    var source := n0[w.job.Source()];
    match w.pc
    case Copy(from, to, m, at) =>
      && from == w.job.Source() && to == dst && m == ModeOf(source)
      && n.File? && n.nlink == 1
      && (match at
          case Cloning => true
          case Chmodding => n.content == source.content
          case Closing(err, cleanup) => err.None? && !cleanup && n == CloneOf(source, ModeOf(source))
          case ClosingSource(err) => err.None? && n == CloneOf(source, ModeOf(source))
          case _ => false)
    case Done(err) => err.None? && n == CloneOf(source, ModeOf(source))
    case _ => false
  }

  /** `winner` is the worker that created the destination, once there is one. */
  ghost predicate Racing(n0: Tree, dst: Path, st: System, winner: Option<nat>) {
    && (winner.None? ==> st.nodes == n0)
    && (winner.Some? ==> winner.value < |st.workers| && dst in st.nodes && st.nodes == n0[dst := st.nodes[dst]])
    && forall id: nat :: id < |st.workers| ==>
         && Contender(n0, dst, st.workers[id].job)
         && if winner == Some(id) then Winning(n0, dst, st.workers[id], st.nodes[dst])
            else Running(n0, dst, st.workers[id]) || (winner.Some? && Beaten(st.workers[id]))
  }

  /** Losing at the check and losing at the exclusive create are answered alike. */
  lemma BothLossesAnswerAlike(dst: Path)
    ensures ResponseFromError(Some(TOO_LATE)) == TAKEN
    ensures ResponseFromError(Some(PathError("open", dst, EEXIST))) == TAKEN
  {
  }

  lemma RunningCheck(n0: Tree, s: Tree, dst: Path, w: Worker, umask: bv9, choice: Choice)
    requires FileTree.Valid(n0) && Contender(n0, dst, w.job) && Checking(n0, w) && choice.fault.None?
    requires Grown(n0, s, dst)
    ensures var (e, w') := WorkerStep(s, w, umask, choice);
            w'.job == w.job && e.Nothing? && (Running(n0, dst, w') || (dst in s && Beaten(w')))
  {
    BothLossesAnswerAlike(dst);
    CheckStep(n0, s, w, umask, choice);
  }

  lemma RunningCopy(n0: Tree, s: Tree, dst: Path, w: Worker, umask: bv9, choice: Choice)
    requires Contender(n0, dst, w.job) && Running(n0, dst, w) && choice.fault.None? && w.pc.Copy?
    requires w.job.Source() in s && (dst !in s ==> s == n0)
    ensures var (e, w') := CopyStep(s, w, umask, choice);
            && w'.job == w.job
            && if e.Create? then
                 dst !in s && e.path == dst && e.node.File? && e.node.nlink == 1 && Winning(n0, dst, w', e.node)
               else e.Nothing? && (Running(n0, dst, w') || (dst in s && Beaten(w')))
  {
    BothLossesAnswerAlike(dst);
  }

  /** A step of a worker that has not created the destination. */
  lemma RunningSteps(n0: Tree, s: Tree, dst: Path, w: Worker, umask: bv9, choice: Choice)
    requires FileTree.Valid(n0) && Contender(n0, dst, w.job) && Running(n0, dst, w) && choice.fault.None?
    requires FileTree.Valid(s) && (s == n0 || (dst in s && s[dst].File? && s == n0[dst := s[dst]]))
    ensures var (e, w') := WorkerStep(s, w, umask, choice);
            && w'.job == w.job
            && if e.Create? then
                 dst !in s && e.path == dst && e.node.File? && e.node.nlink == 1 && Winning(n0, dst, w', e.node)
               else e.Nothing? && (Running(n0, dst, w') || (dst in s && Beaten(w')))
  {
    if w.pc.Copy? {
      RunningCopy(n0, s, dst, w, umask, choice);
    } else {
      RunningCheck(n0, s, dst, w, umask, choice);
    }
  }

  lemma BeatenStays(s: Tree, w: Worker, umask: bv9, choice: Choice)
    requires Beaten(w)
    ensures var (e, w') := WorkerStep(s, w, umask, choice); e.Nothing? && Beaten(w') && w'.job == w.job
  {
  }

  lemma WinnerSteps(n0: Tree, s: Tree, dst: Path, w: Worker, umask: bv9, choice: Choice)
    requires FileTree.Valid(n0) && Contender(n0, dst, w.job) && choice.fault.None?
    requires w.pc.Copy? ==> choice.bytes.None?
    requires dst in s && s == n0[dst := s[dst]] && Winning(n0, dst, w, s[dst])
    ensures var (e, w') := WorkerStep(s, w, umask, choice);
            && w'.job == w.job
            && (e.Nothing? || (e.Change? && e.path == dst))
            && Winning(n0, dst, w', Apply(s, e)[dst])
  {
  }

  /** The winner goes on. */
  lemma WinnerKeepsRacing(n0: Tree, dst: Path, st: System, id: nat, e: Effect, w: Worker, owner: map<Path, nat>)
    requires Racing(n0, dst, st, Some(id)) && w.job == st.workers[id].job
    requires (e.Nothing? || (e.Change? && e.path == dst))
    requires Winning(n0, dst, w, Apply(st.nodes, e)[dst])
    ensures Racing(n0, dst, System(Apply(st.nodes, e), owner, st.workers[id := w]), Some(id))
  {
  }

  /** Somebody else goes on, making nothing. */
  lemma OtherKeepsRacing(n0: Tree, dst: Path, st: System, winner: Option<nat>, id: nat, w: Worker,
                         owner: map<Path, nat>)
    requires Racing(n0, dst, st, winner) && id < |st.workers| && winner != Some(id) && w.job == st.workers[id].job
    requires Running(n0, dst, w) || (winner.Some? && Beaten(w))
    ensures Racing(n0, dst, System(st.nodes, owner, st.workers[id := w]), winner)
  {
  }

  /** Somebody makes the destination. */
  lemma CreatorWins(n0: Tree, dst: Path, st: System, id: nat, n: Node, w: Worker, owner: map<Path, nat>)
    requires Racing(n0, dst, st, None) && id < |st.workers| && w.job == st.workers[id].job && Winning(n0, dst, w, n)
    ensures Racing(n0, dst, System(st.nodes[dst := n], owner, st.workers[id := w]), Some(id))
  {
  }

  lemma RaceStep(n0: Tree, dst: Path, st: System, winner: Option<nat>, umask: bv9, a: Action)
        returns (winner': Option<nat>)
    requires FileTree.Valid(n0) && Inv(n0, st) && Racing(n0, dst, st, winner) && RaceAction(n0, dst, a)
    ensures Racing(n0, dst, Next(st, umask, a), winner')
  {
    winner' := winner;
    if a.Run? && a.id < |st.workers| {
      var w := st.workers[a.id];
      var choice := Settled(st, w, a.choice);
      var (e, w') := WorkerStep(st.nodes, w, umask, choice);
      var owner := Claim(st.owner, e, a.id);
      if winner == Some(a.id) {
        WinnerSteps(n0, st.nodes, dst, w, umask, choice);
        WinnerKeepsRacing(n0, dst, st, a.id, e, w', owner);
      } else if Beaten(w) {
        BeatenStays(st.nodes, w, umask, choice);
        OtherKeepsRacing(n0, dst, st, winner, a.id, w', owner);
      } else {
        if winner.Some? { WinnersFileIsFile(n0, dst, st, winner.value); }
        RunningSteps(n0, st.nodes, dst, w, umask, choice);
        if e.Create? {
          winner' := Some(a.id);
          CreatorWins(n0, dst, st, a.id, e.node, w', owner);
        } else {
          OtherKeepsRacing(n0, dst, st, winner, a.id, w', owner);
        }
      }
    }
  }

  lemma WinnersFileIsFile(n0: Tree, dst: Path, st: System, winner: nat)
    requires Racing(n0, dst, st, Some(winner))
    ensures st.nodes[dst].File?
  {
    assert Winning(n0, dst, st.workers[winner], st.nodes[dst]);
  }

  lemma {:induction false} RaceGoes(n0: Tree, dst: Path, umask: bv9, actions: seq<Action>) returns (winner: Option<nat>)
    requires FileTree.Valid(n0) && forall i | 0 <= i < |actions| :: RaceAction(n0, dst, actions[i])
    ensures Racing(n0, dst, Execution(n0, umask, actions), winner)
    decreases |actions|
  {
    if actions == [] {
      winner := None;
    } else {
      var before := actions[..|actions| - 1];
      winner := RaceGoes(n0, dst, umask, before);
      InvAlways(n0, umask, before);
      winner := RaceStep(n0, dst, Execution(n0, umask, before), winner, umask, actions[|actions| - 1]);
    }
  }

  /**
   * The race. When every contender has its answer, exactly one succeeded; the destination is the copy of its source;
   * every other was told the same thing; and nothing else changed.
   */
  lemma ExactlyOneWins(n0: Tree, dst: Path, umask: bv9, actions: seq<Action>) returns (winner: nat)
    requires FileTree.Valid(n0) && forall i | 0 <= i < |actions| :: RaceAction(n0, dst, actions[i])
    requires var st := Execution(n0, umask, actions);
             st.workers != [] && forall id: nat :: id < |st.workers| ==> st.workers[id].pc.Done?
    ensures var st := Execution(n0, umask, actions);
            && winner < |st.workers| && st.workers[winner].pc == Done(None)
            && st.workers[winner].job.Source() in n0 && n0[st.workers[winner].job.Source()].File?
            && st.nodes
                == n0[dst := CloneOf(n0[st.workers[winner].job.Source()], ModeOf(n0[st.workers[winner].job.Source()]))]
            && forall id: nat :: id < |st.workers| && id != winner ==>
                 st.workers[id].pc.result.Some? && ResponseFromError(st.workers[id].pc.result) == TAKEN
  {
    var st := Execution(n0, umask, actions);
    var w := RaceGoes(n0, dst, umask, actions);
    assert w.Some? by {
      assert st.workers[0].pc.Done?;
      assert !Running(n0, dst, st.workers[0]);
    }
    winner := w.value;
    assert Winning(n0, dst, st.workers[winner], st.nodes[dst]);
    forall id: nat | id < |st.workers| && id != winner
      ensures st.workers[id].pc.result.Some? && ResponseFromError(st.workers[id].pc.result) == TAKEN
    {
      assert Running(n0, dst, st.workers[id]) || Beaten(st.workers[id]);
    }
  }
}
