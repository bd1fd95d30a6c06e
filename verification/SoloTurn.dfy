/**
 * The worker machine makes the sequential walk: left alone, with no call failing, a worker's steps for one entry of its
 * walk add up to one turn of the walk of TreeWalks. (Whether the modes of its own directories let it make those steps
 * is answered in TreeProgress.)
 */
module SoloTurns {
  import opened Wrappers
  import opened FileTree
  import opened WalkOrder
  import opened Kernels
  import opened Reflinks
  import opened TreeImages
  import opened TreeWalks
  import opened WalkTermination
  import opened Workers

  const QUIET := Choice(None, None)

  /** One undisturbed step. */
  ghost function Solo(s: Tree, w: Worker, umask: bv9): (Tree, Worker) {
    var (e, w') := WorkerStep(s, w, umask, QUIET);
    (Apply(s, e), w')
  }

  ghost function Iterate<S>(f: S -> S, x: S, n: nat): S
    decreases n
  {
    if n == 0 then x else Iterate(f, f(x), n - 1)
  }

  lemma {:induction false} IterateAdd<S>(f: S -> S, x: S, m: nat, n: nat)
    ensures Iterate(f, x, m + n) == Iterate(f, Iterate(f, x, m), n)
    decreases m
  {
    if m > 0 {
      IterateAdd(f, f(x), m - 1, n);
    }
  }

  ghost function Alone(umask: bv9): ((Tree, Worker)) -> (Tree, Worker) {
    (x: (Tree, Worker)) => Solo(x.0, x.1, umask)
  }

  /** So many undisturbed steps. */
  ghost function SoloSteps(s: Tree, w: Worker, umask: bv9, n: nat): (Tree, Worker) {
    Iterate(Alone(umask), (s, w), n)
  }

  /** How many calls an entry takes. */
  function CallsFor(n: Node): nat {
    if n.Dir? then 3 else 7
  }

  /** The entry at `path` is visited, its copy made, and, if it is a directory, its contents put on the stack. */
  lemma SoloTurnIsMove(s: Tree, w: Worker, umask: bv9, path: Path)
    requires umask & OWNER_RWX == 0 && w.job.recursive && w.pc == Visit(path)
    requires var src, dst := w.job.Source(), w.job.Destination();
             src <= path && path in s && Clonable(s[path]) && CreateErrno(s, Relocate(src, dst, path)).None?
    ensures var src, dst := w.job.Source(), w.job.Destination();
            var st := Move(src, dst, WalkState(s, [path] + w.stack));
            var (s', w') := SoloSteps(s, w, umask, CallsFor(s[path]));
            && st.Some? && s' == st.value.nodes
            && w' == AdvanceTo(w', st.value.stack) && w'.job == w.job
            && w'.directories == w.directories
                 + if s[path].Dir? then
                     [PendingMode(Relocate(src, dst, path), ExactDirectoryMode(Info(s[path]).mode))]
                   else []
  {
    var src, dst := w.job.Source(), w.job.Destination();
    MoveIs(src, dst, s, path, w.stack);
    if s[path].Dir? {
      SoloDirectory(s, w, umask, path);
    } else {
      SoloFile(s, w, umask, path);
      NoContents(s, path, Relocate(src, dst, path));
      assert [] + w.stack == w.stack;
    }
  }

  lemma SoloDirectory(s: Tree, w: Worker, umask: bv9, path: Path)
    requires umask & OWNER_RWX == 0 && w.job.recursive && w.pc == Visit(path)
    requires w.job.Source() <= path && IsDirAt(s, path) && CreateErrno(s, w.job.Target(path)).None?
    ensures var s3 := s[w.job.Target(path) := TEMPORARY];
            var w3 := w.(directories := w.directories + [PendingMode(w.job.Target(path),
                ExactDirectoryMode(Info(s[path]).mode))]);
            SoloSteps(s, w, umask, 3) == (s3, AdvanceTo(w3, ChildPaths(s3, path) + w.stack))
  {
    TemporaryModeSurvivesUmask(umask);
    var mode := Info(s[path]).mode;
    var w1 := w.(pc := MakeDir(path, mode));
    assert Solo(s, w, umask) == (s, w1);
    var s2 := s[w.job.Target(path) := TEMPORARY];
    var w2 := w1.(pc := Read(path),
        directories := w.directories + [PendingMode(w.job.Target(path), ExactDirectoryMode(mode))]);
    assert Solo(s, w1, umask) == (s2, w2);
    var w3 := AdvanceTo(w2, ChildPaths(s2, path) + w.stack);
    assert Solo(s2, w2, umask) == (s2, w3);
    assert SoloSteps(s2, w3, umask, 0) == (s2, w3);
    assert SoloSteps(s2, w2, umask, 1) == (s2, w3);
    assert SoloSteps(s, w1, umask, 2) == (s2, w3);
  }

  /** A created file gives nothing contents that was not a directory. */
  lemma NoContents(s: Tree, path: Path, to: Path)
    requires path in s && s[path].File? && Clonable(s[path]) && CreateErrno(s, to).None?
    ensures ChildPaths(s[to := Finished(s[path])], path) == []
  {
    OnlyDirectoriesHaveContents(s[to := Finished(s[path])], path);
  }

  lemma LastWriteCounts(s: Tree, p: Path, a: Node, b: Node)
    ensures s[p := a][p := b] == s[p := b]
  {
  }

  /** Where a worker goes on after a file does not depend on where it was. */
  lemma AfterCopyIgnoresPc(w: Worker, pc: Pc)
    ensures AfterCopy(w.(pc := pc), None) == AfterCopy(w, None)
  {
  }

  lemma Step(s: Tree, w: Worker, umask: bv9, n: nat, s': Tree, w': Worker)
    requires n > 0 && Solo(s, w, umask) == (s', w')
    ensures SoloSteps(s, w, umask, n) == SoloSteps(s', w', umask, n - 1)
  {
  }

  lemma Opens(s: Tree, w: Worker, umask: bv9)
    requires w.pc.Copy? && w.pc.at == Opening && w.pc.from in s
    ensures Solo(s, w, umask) == (s, w.(pc := Copy(w.pc.from, w.pc.to, w.pc.mode, Creating)))
  {
  }

  lemma Creates(s: Tree, w: Worker, umask: bv9)
    requires w.pc.Copy? && w.pc.at == Creating && CreateErrno(s, w.pc.to).None?
    ensures Solo(s, w, umask)
         == (s[w.pc.to := File([], PlainAttr(w.pc.mode.attr.perm & !umask), 1)],
             w.(pc := Copy(w.pc.from, w.pc.to, w.pc.mode, Cloning)))
  {
  }

  lemma Clones(s: Tree, w: Worker, umask: bv9)
    requires w.pc.Copy? && w.pc.at == Cloning && w.pc.from in s && s[w.pc.from].File? && w.pc.to in s
    requires s[w.pc.to].File?
    ensures Solo(s, w, umask)
         == (s[w.pc.to := s[w.pc.to].(content := s[w.pc.from].content)],
             w.(pc := Copy(w.pc.from, w.pc.to, w.pc.mode, Chmodding)))
  {
  }

  lemma Chmods(s: Tree, w: Worker, umask: bv9)
    requires w.pc.Copy? && w.pc.at == Chmodding && w.pc.to in s && s[w.pc.to].File?
    ensures Solo(s, w, umask)
         == (s[w.pc.to := s[w.pc.to].(attr := PlainAttr(w.pc.mode.attr.perm))],
             w.(pc := Copy(w.pc.from, w.pc.to, w.pc.mode, Closing(None, false))))
  {
  }

  lemma Closes(s: Tree, w: Worker, umask: bv9)
    requires w.pc.Copy? && w.pc.at == Closing(None, false)
    ensures Solo(s, w, umask) == (s, w.(pc := Copy(w.pc.from, w.pc.to, w.pc.mode, ClosingSource(None))))
  {
  }

  lemma ClosesSource(s: Tree, w: Worker, umask: bv9)
    requires w.pc.Copy? && w.pc.at == ClosingSource(None)
    ensures Solo(s, w, umask) == (s, AfterCopy(w, None))
  {
  }

  lemma Visits(s: Tree, w: Worker, umask: bv9)
    requires w.pc.Visit? && w.pc.path in s && s[w.pc.path].File? && s[w.pc.path].nlink <= 1
    ensures Solo(s, w, umask)
         == (s, w.(pc := Copy(w.pc.path, w.job.Target(w.pc.path), Perm(Info(s[w.pc.path]).mode), Opening)))
  {
  }

  lemma SoloFile(s: Tree, w: Worker, umask: bv9, path: Path)
    requires w.job.recursive && w.pc == Visit(path)
    requires path in s && s[path].File? && s[path].nlink <= 1 && CreateErrno(s, w.job.Target(path)).None?
    ensures SoloSteps(s, w, umask, 7) == (s[w.job.Target(path) := Finished(s[path])], AdvanceTo(w, w.stack))
  {
    var to, mode := w.job.Target(path), Perm(Info(s[path]).mode);
    Visits(s, w, umask);
    var w1 := w.(pc := Copy(path, to, mode, Opening));
    Step(s, w, umask, 7, s, w1);
    SoloCopy(s, w1, umask);
  }

  /** The six calls of FileReflinker.Reflink in a worker left alone. */
  lemma SoloCopy(s: Tree, w: Worker, umask: bv9)
    requires w.pc.Copy? && w.pc.at == Opening
    requires w.pc.from in s && s[w.pc.from].File? && CreateErrno(s, w.pc.to).None?
    ensures SoloSteps(s, w, umask, 6) == (s[w.pc.to := CloneOf(s[w.pc.from], w.pc.mode)], AfterCopy(w, None))
  {
    var Copy(from, to, mode, _) := w.pc;
    Opens(s, w, umask);
    var w1 := w.(pc := Copy(from, to, mode, Creating));
    Step(s, w, umask, 6, s, w1);
    SoloCreate(s, w1, umask);
    AfterCopyIgnoresPc(w, w1.pc);
  }

  lemma SoloCreateStep(s: Tree, w: Worker, umask: bv9)
    requires w.pc.Copy? && w.pc.at == Creating && CreateErrno(s, w.pc.to).None?
    ensures SoloSteps(s, w, umask, 5)
         == SoloSteps(s[w.pc.to := File([], PlainAttr(w.pc.mode.attr.perm & !umask), 1)],
                      w.(pc := Copy(w.pc.from, w.pc.to, w.pc.mode, Cloning)), umask, 4)
  {
    Creates(s, w, umask);
    Step(s, w, umask, 5, s[w.pc.to := File([], PlainAttr(w.pc.mode.attr.perm & !umask), 1)],
         w.(pc := Copy(w.pc.from, w.pc.to, w.pc.mode, Cloning)));
  }

  lemma SoloCreate(s: Tree, w: Worker, umask: bv9)
    requires w.pc.Copy? && w.pc.at == Creating
    requires w.pc.from in s && s[w.pc.from].File? && CreateErrno(s, w.pc.to).None?
    ensures SoloSteps(s, w, umask, 5) == (s[w.pc.to := CloneOf(s[w.pc.from], w.pc.mode)], AfterCopy(w, None))
  {
    var Copy(from, to, mode, _) := w.pc;
    var w1 := w.(pc := Copy(from, to, mode, Cloning));
    SoloCreateStep(s, w, umask);
    SoloFill(s, File([], PlainAttr(mode.attr.perm & !umask), 1), w1, umask);
    AfterCopyIgnoresPc(w, w1.pc);
  }

  lemma SoloFill(s: Tree, created: Node, w: Worker, umask: bv9)
    requires w.pc.Copy? && w.pc.at == Cloning
    requires w.pc.from in s && s[w.pc.from].File? && w.pc.to !in s && created.File? && created.nlink == 1
    ensures SoloSteps(s[w.pc.to := created], w, umask, 4)
         == (s[w.pc.to := CloneOf(s[w.pc.from], w.pc.mode)], AfterCopy(w, None))
  {
    var Copy(from, to, mode, _) := w.pc;
    Clones(s[to := created], w, umask);
    var filled, w1 := created.(content := s[from].content), w.(pc := Copy(from, to, mode, Chmodding));
    LastWriteCounts(s, to, created, filled);
    Step(s[to := created], w, umask, 4, s[to := filled], w1);
    Chmods(s[to := filled], w1, umask);
    var copy, w2 := CloneOf(s[from], mode), w.(pc := Copy(from, to, mode, Closing(None, false)));
    LastWriteCounts(s, to, filled, copy);
    Step(s[to := filled], w1, umask, 3, s[to := copy], w2);
    SoloClose(s[to := copy], w2, umask);
    AfterCopyIgnoresPc(w, w2.pc);
  }

  lemma SoloClose(s: Tree, w: Worker, umask: bv9)
    requires w.pc.Copy? && w.pc.at == Closing(None, false)
    ensures SoloSteps(s, w, umask, 2) == (s, AfterCopy(w, None))
  {
    Closes(s, w, umask);
    var w1 := w.(pc := Copy(w.pc.from, w.pc.to, w.pc.mode, ClosingSource(None)));
    Step(s, w, umask, 2, s, w1);
    ClosesSource(s, w1, umask);
    Step(s, w1, umask, 1, s, AfterCopy(w1, None));
    AfterCopyIgnoresPc(w, w1.pc);
  }

  // ---------------------------------------------------------------------------------------------
  // A whole run
  // ---------------------------------------------------------------------------------------------

  /** Left alone, the worker gets from one state to the other. */
  ghost predicate Reaches(s: Tree, w: Worker, umask: bv9, s': Tree, w': Worker) {
    exists n :: SoloSteps(s, w, umask, n) == (s', w')
  }

  lemma StepsAdd(s: Tree, w: Worker, umask: bv9, m: nat, n: nat, s': Tree, w': Worker)
    requires SoloSteps(s, w, umask, m) == (s', w')
    ensures SoloSteps(s, w, umask, m + n) == SoloSteps(s', w', umask, n)
  {
    IterateAdd(Alone(umask), (s, w), m, n);
  }

  lemma ReachesStep(s: Tree, w: Worker, umask: bv9, s1: Tree, w1: Worker, n: nat, s2: Tree, w2: Worker)
    requires Reaches(s, w, umask, s1, w1) && SoloSteps(s1, w1, umask, n) == (s2, w2)
    ensures Reaches(s, w, umask, s2, w2)
  {
    var m :| SoloSteps(s, w, umask, m) == (s1, w1);
    StepsAdd(s, w, umask, m, n, s1, w1);
  }

  lemma ReachesAll(s: Tree, w: Worker, umask: bv9, s1: Tree, w1: Worker, s2: Tree, w2: Worker)
    requires Reaches(s, w, umask, s1, w1) && Reaches(s1, w1, umask, s2, w2)
    ensures Reaches(s, w, umask, s2, w2)
  {
    var n :| SoloSteps(s1, w1, umask, n) == (s2, w2);
    ReachesStep(s, w, umask, s1, w1, n, s2, w2);
  }

  lemma ReachesNext(s: Tree, w: Worker, umask: bv9, s': Tree, w': Worker)
    requires Solo(s, w, umask) == (s', w')
    ensures Reaches(s, w, umask, s', w')
  {
    Step(s, w, umask, 1, s', w');
    assert SoloSteps(s, w, umask, 1) == (s', w');
  }

  /** The worker is between two turns: it stands before the entry on top of the stack, or before restoring modes. */
  ghost predicate Between(w: Worker, job: Job, stack: seq<Path>, directories: seq<PendingMode>) {
    w == AdvanceTo(Worker(job, StatWalk, [], directories), stack)
  }

  /** The source's root is looked at, the destination's root made, the source's root looked at again and read. */
  lemma SoloStart(s: Tree, job: Job, umask: bv9)
    requires umask & OWNER_RWX == 0 && IsDirAt(s, job.Source()) && CreateErrno(s, job.Destination()).None?
    ensures var s' := s[job.Destination() := TEMPORARY];
            var w' := AdvanceTo(Worker(job, StatWalk, [],
                                       [PendingMode(job.Destination(),
                                           ExactDirectoryMode(Info(s[job.Source()]).mode))]),
                                ChildPaths(s', job.Source()));
            SoloSteps(s, Worker(job, StatRoot, [], []), umask, 4) == (s', w')
  {
    TemporaryModeSurvivesUmask(umask);
    var src, dst := job.Source(), job.Destination();
    var mode := Info(s[src]).mode;
    var w, w1 := Worker(job, StatRoot, [], []), Worker(job, MakeRoot(mode), [], []);
    Step(s, w, umask, 4, s, w1);
    var s', dirs := s[dst := TEMPORARY], [PendingMode(dst, ExactDirectoryMode(mode))];
    var w2, w3 := Worker(job, StatWalk, [], dirs), Worker(job, Read(src), [], dirs);
    Step(s, w1, umask, 3, s', w2);
    Step(s', w2, umask, 2, s', w3);
    assert ChildPaths(s', src) + [] == ChildPaths(s', src);
    Step(s', w3, umask, 1, s', AdvanceTo(w3, ChildPaths(s', src)));
  }

  /** One turn of the walk, from between to between. */
  lemma OneSoloTurn(s0: Tree, w: Worker, job: Job, umask: bv9, st: WalkState, done: seq<Path>, dirs: seq<PendingMode>)
      returns (w': Worker, done': seq<Path>, dirs': seq<PendingMode>)
    requires umask & OWNER_RWX == 0 && job.recursive
    requires CanStart(s0, job.Source(), job.Destination()) && AllClonable(s0, job.Source())
    requires Apart(job.Source(), job.Destination())
    requires FileTree.Valid(st.nodes) && st.stack != [] && Between(w, job, st.stack, dirs)
    requires Walking(s0, st.nodes, job.Source(), job.Destination(), done, st.stack, dirs)
    ensures var next := Move(job.Source(), job.Destination(), st);
            && next.Some? && FileTree.Valid(next.value.nodes) && |done'| == |done| + 1
            && Walking(s0, next.value.nodes, job.Source(), job.Destination(), done', next.value.stack, dirs')
            && Between(w', job, next.value.stack, dirs')
            && Reaches(st.nodes, w, umask, next.value.nodes, w')
  {
    var src, dst := job.Source(), job.Destination();
    var path, rest := st.stack[0], st.stack[1..];
    assert st.stack == [path] + rest;
    TurnIsReady(s0, st.nodes, src, dst, done, path, rest, dirs);
    var more := if s0[path].Dir? then [PendingMode(Relocate(src, dst, path), ExactDirectoryMode(Info(s0[path]).mode))]
        else [];
    TurnGrows(s0, st.nodes, src, dst, done, path, rest, dirs, more);
    MoveIs(src, dst, st.nodes, path, rest);
    AddKeepsValid(st.nodes, Relocate(src, dst, path), Fresh(s0[path]));
    done', dirs' := done + [path], dirs + more;
    SoloTurnIsMove(st.nodes, w, umask, path);
    w' := SoloSteps(st.nodes, w, umask, CallsFor(st.nodes[path])).1;
  }

  /** After `n` turns of the walk the worker stands before the next, with the modes of what it copied recorded. */
  ghost predicate AfterTurns(s0: Tree, job: Job, umask: bv9, n: nat, w: Worker, done: seq<Path>, dirs: seq<PendingMode>)
    requires job.Source() in s0
  {
    var st := Turns(s0, job.Source(), job.Destination(), n);
    && st.Some? && FileTree.Valid(st.value.nodes) && |done| == n + 1
    && Walking(s0, st.value.nodes, job.Source(), job.Destination(), done, st.value.stack, dirs)
    && Between(w, job, st.value.stack, dirs)
    && Reaches(s0, Worker(job, StatRoot, [], []), umask, st.value.nodes, w)
  }

  lemma BeforeTurns(s0: Tree, job: Job, umask: bv9) returns (w: Worker, dirs: seq<PendingMode>)
    requires umask & OWNER_RWX == 0 && job.recursive
    requires CanStart(s0, job.Source(), job.Destination()) && AllClonable(s0, job.Source())
    requires Apart(job.Source(), job.Destination())
    ensures AfterTurns(s0, job, umask, 0, w, [job.Source()], dirs)
  {
    var src, dst := job.Source(), job.Destination();
    var s := s0[dst := TEMPORARY];
    dirs := [PendingMode(dst, ExactDirectoryMode(Info(s0[src]).mode))];
    AddKeepsValid(s0, dst, TEMPORARY);
    StartOfWalk(s0, s, src, dst, dirs);
    SoloStart(s0, job, umask);
    w := AdvanceTo(Worker(job, StatWalk, [], dirs), ChildPaths(s, src));
  }

  lemma OneMoreTurn(s0: Tree, job: Job, umask: bv9, n: nat, w: Worker, done: seq<Path>, dirs: seq<PendingMode>)
      returns (w': Worker, done': seq<Path>, dirs': seq<PendingMode>)
    requires umask & OWNER_RWX == 0 && job.recursive
    requires CanStart(s0, job.Source(), job.Destination()) && AllClonable(s0, job.Source())
    requires Apart(job.Source(), job.Destination())
    requires n + 1 < |Preorder(s0, job.Source())| && AfterTurns(s0, job, umask, n, w, done, dirs)
    ensures AfterTurns(s0, job, umask, n + 1, w', done', dirs')
  {
    var st := Turns(s0, job.Source(), job.Destination(), n).value;
    assert |done + Pending(s0, st.stack)| == |Preorder(s0, job.Source())|;
    w', done', dirs' := OneSoloTurn(s0, w, job, umask, st, done, dirs);
    var next := Move(job.Source(), job.Destination(), st).value;
    var m :| SoloSteps(st.nodes, w, umask, m) == (next.nodes, w');
    ReachesStep(s0, Worker(job, StatRoot, [], []), umask, st.nodes, w, m, next.nodes, w');
  }

  /** The worker makes every turn of the walk. */
  lemma {:induction false} SoloTurnsAreTurns(s0: Tree, job: Job, umask: bv9, n: nat)
      returns (w: Worker, done: seq<Path>, dirs: seq<PendingMode>)
    requires umask & OWNER_RWX == 0 && job.recursive
    requires CanStart(s0, job.Source(), job.Destination()) && AllClonable(s0, job.Source())
    requires Apart(job.Source(), job.Destination())
    requires n < |Preorder(s0, job.Source())|
    ensures AfterTurns(s0, job, umask, n, w, done, dirs)
  {
    if n == 0 {
      w, dirs := BeforeTurns(s0, job, umask);
      done := [job.Source()];
    } else {
      w, done, dirs := SoloTurnsAreTurns(s0, job, umask, n - 1);
      w, done, dirs := OneMoreTurn(s0, job, umask, n - 1, w, done, dirs);
    }
  }

  lemma RestoresOne(s: Tree, w: Worker, umask: bv9, left: nat)
    requires w.pc == Restore(left, None) && 0 < left <= |w.directories| && IsDirAt(s, w.directories[left - 1].path)
    ensures var d := w.directories[left - 1];
            Solo(s, w, umask) == (s[d.path := SetAttr(s[d.path], d.mode.attr)], w.(pc := Restore(left - 1, None)))
  {
  }

  lemma RestoresOneStep(s: Tree, w: Worker, umask: bv9, left: nat)
    requires w.pc == Restore(left, None) && 0 < left <= |w.directories| && IsDirAt(s, w.directories[left - 1].path)
    ensures var d := w.directories[left - 1];
            && SoloSteps(s, w, umask, left + 1)
               == SoloSteps(s[d.path := SetAttr(s[d.path], d.mode.attr)], w.(pc := Restore(left - 1, None)), umask,
                   left)
  {
    var d := w.directories[left - 1];
    RestoresOne(s, w, umask, left);
    Step(s, w, umask, left + 1, s[d.path := SetAttr(s[d.path], d.mode.attr)], w.(pc := Restore(left - 1, None)));
  }

  lemma RestoresNone(s: Tree, w: Worker, umask: bv9)
    requires w.pc == Restore(0, None)
    ensures SoloSteps(s, w, umask, 1) == (s, w.(pc := Done(None)))
  {
    Step(s, w, umask, 1, s, w.(pc := Done(None)));
  }

  /** The modes are restored one by one, from the back. */
  lemma {:induction false} SoloRestores(s0: Tree, s: Tree, w: Worker, umask: bv9, left: nat) returns (s': Tree)
    requires w.pc == Restore(left, None) && left <= |w.directories| && ModesSet(s0, s, w.directories, left)
    requires StrictlySorted(PathsIn(w.directories)) && forall d :: d in w.directories ==> IsDirAt(s0, d.path)
    ensures ModesSet(s0, s', w.directories, 0)
    ensures SoloSteps(s, w, umask, left + 1) == (s', w.(pc := Done(None)))
    decreases left
  {
    if left == 0 {
      s' := s;
      RestoresNone(s, w, umask);
    } else {
      var d := w.directories[left - 1];
      assert d in w.directories;
      RestoringKeepsDirs(s0, s, w.directories, left);
      SetOneMore(s0, s, w.directories, left);
      RestoresOneStep(s, w, umask, left);
      s' := SoloRestores(s0, s[d.path := SetAttr(s[d.path], d.mode.attr)], w.(pc := Restore(left - 1, None)), umask,
          left - 1);
    }
  }

  /**
   * A recursive request that has passed its checks, undisturbed: the worker's calls, one by one, bring it to success,
   * and what it leaves is the clone that the sequential ReflinkTree promises.
   */
  lemma {:induction false} SoloWorkerClones(s0: Tree, job: Job, umask: bv9) returns (s': Tree, w': Worker)
    requires umask & OWNER_RWX == 0 && job.recursive
    requires CanStart(s0, job.Source(), job.Destination()) && AllClonable(s0, job.Source())
    requires !(job.Source() < job.Destination())
    ensures Reaches(s0, Worker(job, StatRoot, [], []), umask, s', w') && Succeeded(w')
    ensures IsTreeClone(s0, s', job.Source(), job.Destination())
  {
    var src, dst := job.Source(), job.Destination();
    assert src <= dst && src != dst ==> src < dst;
    DestinationIsApart(s0, src, dst);
    PreorderLength(s0, src);
    var n := |Preorder(s0, src)| - 1;
    var w, done, dirs := SoloTurnsAreTurns(s0, job, umask, n);
    var st := Turns(s0, src, dst, n).value;
    WalkEnds(s0, src, dst, n);
    assert done + Pending(s0, []) == done;
    s' := SoloFinish(s0, st.nodes, w, job, umask, done, dirs);
    w' := w.(pc := Done(None));
    ReachesStep(s0, Worker(job, StatRoot, [], []), umask, st.nodes, w, |dirs| + 1, s', w');
  }

  lemma SoloFinish(s0: Tree, s: Tree, w: Worker, job: Job, umask: bv9, done: seq<Path>, dirs: seq<PendingMode>)
      returns (s': Tree)
    requires CanStart(s0, job.Source(), job.Destination()) && AllClonable(s0, job.Source())
    requires !(job.Source() <= job.Destination())
    requires Walking(s0, s, job.Source(), job.Destination(), done, [], dirs) && done == Preorder(s0, job.Source())
    requires Between(w, job, [], dirs)
    ensures SoloSteps(s, w, umask, |dirs| + 1) == (s', w.(pc := Done(None)))
    ensures IsTreeClone(s0, s', job.Source(), job.Destination())
  {
    var src, dst := job.Source(), job.Destination();
    ReadyToRestore(s0, s, src, dst, done, dirs, None);
    s' := SoloRestores(s, s, w, umask, |dirs|);
    var run := TreeRun(true, done, None, 0, None, None);
    PrefixThenModes(s0, s, s', src, dst, run);
    CompletesIsClone(s0, s', src, dst, run);
  }
}
