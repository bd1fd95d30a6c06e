/**
 * Many requests at once. The server (internal/server/server.go) starts a worker for each connection and lets them run
 * side by side; each is the sequence of system calls made by internal/service, internal/validate and internal/tree.
 * Here a worker is a machine that makes one call per step, and a run is any interleaving of such steps, with new
 * workers arriving at any time and any call failing for any reason.
 *
 * SecureJoin is one step here: it gives up as Resolve says, by Resolve its result is the lexical path whenever the
 * following checks pass, and it depends on symbolic links only, which no worker creates or removes
 * (ResolvingIsOneStep).
 */
module Workers {
  import opened Wrappers
  import opened Protocol
  import opened FileTree
  import opened WalkOrder
  import opened Kernels
  import opened Reflinks
  import opened TreeImages
  import opened TreeWalks
  import opened Resolve
  import opened Services

  /** A request whose two paths have been normalised: below `root`, these components. */
  datatype Job = Job(root: Path, src: seq<string>, dst: seq<string>, recursive: bool) {
    function Source(): Path { root + src }
    function Destination(): Path { root + dst }

    /** What `filepath.Dir` of the relative destination leads to. */
    function DestinationDir(): Path {
      if dst == [] then root else root + dst[..|dst| - 1]
    }

    /** Where the copy of an entry of the walk goes. */
    function Target(path: Path): Path {
      if Source() <= path then Relocate(Source(), Destination(), path) else Destination()
    }
  }

  /** Where FileReflinker.Reflink stands. */
  datatype CopyPc =
    | Opening | Creating | Cloning | Chmodding
    | Closing(err: Option<Error>, cleanup: bool)
    | Removing(err: Option<Error>)
    | ClosingSource(err: Option<Error>)

  /** The call a worker makes next. */
  datatype Pc =
    | JoinSrc | WalkSrc(i: nat) | StatSrc
    | JoinDst(mode: FileMode) | WalkDst(i: nat, mode: FileMode) | StatDst(mode: FileMode)
    | JoinParent(mode: FileMode) | StatParent(mode: FileMode)
    | Copy(from: Path, to: Path, mode: FileMode, at: CopyPc)
    | StatRoot | MakeRoot(mode: FileMode) | StatWalk | Read(dir: Path)
    | Visit(path: Path) | MakeDir(path: Path, mode: FileMode)
    | Restore(left: nat, walkErr: Option<Error>)
    | Done(result: Option<Error>)

  datatype Worker = Worker(job: Job, pc: Pc, stack: seq<Path>, directories: seq<PendingMode>)

  /** What a call does to the file system. */
  datatype Effect = Nothing | Create(path: Path, node: Node) | Change(path: Path, node: Node) | Delete(path: Path)

  /**
   * What the environment decides about a call: whether it fails for an unknown reason, and, for a clone from a file
   * that may no longer be the one at its path, what the open file holds.
   */
  datatype Choice = Choice(fault: Option<Errno>, bytes: Option<Content>)

  function Apply(s: Tree, e: Effect): Tree {
    match e
    case Nothing => s
    case Create(p, n) => s[p := n]
    case Change(p, n) => s[p := n]
    case Delete(p) => s - {p}
  }

  function Look(s: Tree, p: Path, fault: Option<Errno>): Result<FileInfo, Error> {
    if fault.Some? then Err(PathError("lstat", p, fault.value))
    else if p in s then Ok(Info(s[p]))
    else Err(PathError("lstat", p, Missing(s, p)))
  }

  /** The permission bits a copy of this node is asked for with. */
  function ModeOf(n: Node): FileMode { Perm(Info(n).mode) }

  function Fail(w: Worker, e: Error): Worker { w.(pc := Done(Some(e))) }

  /** Missing nodes are reported with a message of the caller's; other failures as they are. */
  function NotFound(e: Error, message: string): Error {
    if OsIsNotExist(e) then WrapError(ENoEnt, message, e) else e
  }

  // ---------------------------------------------------------------------------------------------
  // One step
  // ---------------------------------------------------------------------------------------------

  /** Resolving the source: calls that only look. */
  ghost function SourceStep(s: Tree, w: Worker, fault: Option<Errno>): Worker {
    match w.pc
    case JoinSrc => AfterJoin(s, w, w.job.src, fault, if w.job.src == [] then StatSrc else WalkSrc(0))
    case WalkSrc(i) => if i >= |w.job.src| then w.(pc := StatSrc) else SourceComponent(s, w, i, fault)
    case StatSrc => SourceItself(s, w, fault)
    case _ => w
  }

  ghost function SourceComponent(s: Tree, w: Worker, i: nat, fault: Option<Errno>): Worker
    requires i < |w.job.src|
  {
    var info := Look(s, w.job.root + w.job.src[..i + 1], fault);
    if info.Err? then Fail(w, NotFound(info.error, "source not found"))
    else if info.value.mode.kind == SymbolicLink then Fail(w, NO_SYMLINKS)
    else w.(pc := if i + 1 == |w.job.src| then StatSrc else WalkSrc(i + 1))
  }

  ghost function SourceItself(s: Tree, w: Worker, fault: Option<Errno>): Worker {
    var info := Look(s, w.job.Source(), fault);
    if info.Err? then Fail(w, NotFound(info.error, "source not found"))
    else
      var refused := Unfit(info.value, w.job.recursive);
      if refused.Some? then Fail(w, refused.value) else w.(pc := JoinDst(Perm(info.value.mode)))
  }

  /** Too many links. */
  function GaveUp(root: Path): Error {
    WrapError(EPerm, OUTSIDE, PathError("SecureJoin", root, ELOOP))
  }

  /** SecureJoin, as one call; it gives up when it has followed too many links. */
  ghost function AfterJoin(s: Tree, w: Worker, parts: seq<string>, fault: Option<Errno>, next: Pc): Worker {
    if fault.Some? then Fail(w, WrapError(EPerm, OUTSIDE, PathError("lstat", w.job.root, fault.value)))
    else if Resolved(s, w.job.root, [], parts, 0).None? then
      Fail(w, GaveUp(w.job.root))
    else w.(pc := next)
  }

  /** A component of the destination; the last one may be missing. */
  ghost function DestinationComponent(s: Tree, w: Worker, i: nat, mode: FileMode, fault: Option<Errno>): Worker
    requires i < |w.job.dst|
  {
    var info := Look(s, w.job.root + w.job.dst[..i + 1], fault);
    var last := i + 1 == |w.job.dst|;
    if info.Err? && OsIsNotExist(info.error) && last then w.(pc := StatDst(mode))
    else if info.Err? then Fail(w, NotFound(info.error, "destination parent does not exist"))
    else if info.value.mode.kind == SymbolicLink then Fail(w, NO_SYMLINKS)
    else w.(pc := if last then StatDst(mode) else WalkDst(i + 1, mode))
  }

  ghost function DestinationItself(s: Tree, w: Worker, mode: FileMode, fault: Option<Errno>): Worker {
    var info := Look(s, w.job.Destination(), fault);
    if info.Ok? then Fail(w, NewError(EExist, "destination already exists"))
    else if !OsIsNotExist(info.error) then Fail(w, info.error)
    else w.(pc := JoinParent(mode))
  }

  ghost function DestinationParent(s: Tree, w: Worker, mode: FileMode, fault: Option<Errno>): Worker {
    var info := Look(s, w.job.DestinationDir(), fault);
    if info.Err? then Fail(w, NotFound(info.error, "destination parent does not exist"))
    else if info.value.mode.kind == SymbolicLink then Fail(w, NO_SYMLINKS)
    else if info.value.mode.kind != Directory then Fail(w, NewError(EInval, "destination parent must be a directory"))
    else if w.job.recursive then w.(pc := StatRoot)
    else w.(pc := Copy(w.job.Source(), w.job.Destination(), mode, Opening))
  }

  /** Resolving the destination. */
  ghost function DestinationStep(s: Tree, w: Worker, fault: Option<Errno>): Worker {
    match w.pc
    case JoinDst(mode) => AfterJoin(s, w, w.job.dst, fault, if w.job.dst == [] then StatDst(mode) else WalkDst(0, mode))
    case WalkDst(i, mode) =>
      if i >= |w.job.dst| then w.(pc := StatDst(mode)) else DestinationComponent(s, w, i, mode, fault)
    case StatDst(mode) => DestinationItself(s, w, mode, fault)
    case JoinParent(mode) => AfterJoin(s, w, DirParts(w.job.dst), fault, StatParent(mode))
    case StatParent(mode) => DestinationParent(s, w, mode, fault)
    case _ => w
  }

  /** A file is copied or its copying failed: on with the walk, or finished. */
  function AfterCopy(w: Worker, err: Option<Error>): Worker {
    if !w.job.recursive then w.(pc := Done(err))
    else if err.Some? then w.(pc := Restore(|w.directories|, err))
    else AdvanceTo(w, w.stack)
  }

  /** The entry on top of the stack is next; with none left the modes are restored. */
  function AdvanceTo(w: Worker, stack: seq<Path>): Worker {
    if stack == [] then w.(pc := Restore(|w.directories|, None), stack := [])
    else w.(pc := Visit(stack[0]), stack := stack[1..])
  }

  /** One call of FileReflinker.Reflink. */
  ghost function CopyStep(s: Tree, w: Worker, umask: bv9, choice: Choice): (Effect, Worker)
    requires w.pc.Copy?
  {
    var Copy(from, to, mode, at) := w.pc;
    var fault := choice.fault;
    match at
    case Opening =>
      if fault.Some? then (Nothing, AfterCopy(w, Some(PathError("open", from, fault.value))))
      else if from !in s then (Nothing, AfterCopy(w, Some(PathError("open", from, Missing(s, from)))))
      else (Nothing, w.(pc := Copy(from, to, mode, Creating)))
    case Creating =>
      var e := if fault.Some? then fault else CreateErrno(s, to);
      if e.Some? then (Nothing, w.(pc := Copy(from, to, mode, ClosingSource(Some(PathError("open", to, e.value))))))
      else (Create(to, File([], PlainAttr(mode.attr.perm & !umask), 1)), w.(pc := Copy(from, to, mode, Cloning)))
    case Cloning =>
      var e := if fault.Some? then fault else if choice.bytes.None? && from in s then CloneErrno(s, from) else None;
      if e.Some? then
        (Nothing,
            w.(pc := Copy(from, to, mode, Closing(Some(MapReflinkError(PathError("ficlone", from, e.value))), true))))
      else if to in s && s[to].File? then
        var content := choice.bytes.GetOr(if from in s && s[from].File? then s[from].content else []);
        (Change(to, s[to].(content := content)), w.(pc := Copy(from, to, mode, Chmodding)))
      else (Nothing, w.(pc := Copy(from, to, mode, Chmodding)))
    case Chmodding =>
      if fault.Some? then (Nothing, w.(pc := Copy(from, to, mode, Closing(ToError("chmod", to, fault), true))))
      else if to in s && !s[to].Symlink? then
        (Change(to, SetAttr(s[to], Perm(mode).attr)), w.(pc := Copy(from, to, mode, Closing(None, false))))
      else (Nothing, w.(pc := Copy(from, to, mode, Closing(None, false))))
    case Closing(err, cleanup) =>
      var err' := if err.None? then ToError("close", to, fault) else err;
      (Nothing, w.(pc := Copy(from, to, mode, if cleanup then Removing(err') else ClosingSource(err'))))
    case Removing(err) =>
      var e := if fault.Some? then fault else RemoveErrno(s, to);
      (if e.Some? then Nothing else Delete(to), w.(pc := Copy(from, to, mode, ClosingSource(err))))
    case ClosingSource(err) =>
      (Nothing, AfterCopy(w, err))
  }

  /** One call of the tree walk. */
  ghost function TreeStep(s: Tree, w: Worker, umask: bv9, fault: Option<Errno>): (Effect, Worker) {
    var src, dst := w.job.Source(), w.job.Destination();
    match w.pc
    case StatRoot =>
      var info := Look(s, src, fault);
      (Nothing,
       if info.Err? then Fail(w, info.error)
       else if info.value.mode.kind != Directory then Fail(w, NewError(EInval, "source must be a directory"))
       else w.(pc := MakeRoot(info.value.mode)))
    case MakeRoot(mode) =>
      var e := if fault.Some? then fault else CreateErrno(s, dst);
      if e.Some? then (Nothing, Fail(w, PathError("mkdir", dst, e.value)))
      else
        (Create(dst, Dir(PlainAttr(TEMPORARY_DIRECTORY_MODE & !umask))),
         w.(pc := StatWalk, directories := [PendingMode(dst, ExactDirectoryMode(mode))]))
    case StatWalk =>
      var info := Look(s, src, fault);
      (Nothing, if info.Err? then w.(pc := Restore(|w.directories|, Some(info.error))) else w.(pc := Read(src)))
    case Read(dir) =>
      var e := if fault.Some? then fault else if dir !in s then Some(Missing(s, dir))
          else if !s[dir].Dir? then Some(ENOTDIR)
               else None;
      (Nothing,
       if e.Some? then w.(pc := Restore(|w.directories|, Some(PathError("open", dir, e.value))))
       else AdvanceTo(w, ChildPaths(s, dir) + w.stack))
    case Visit(path) =>
      var info := Look(s, path, fault);
      (Nothing,
       if info.Err? then w.(pc := Restore(|w.directories|, Some(info.error)))
       else
         match info.value.mode.kind
         case SymbolicLink => w.(pc := Restore(|w.directories|, Some(NO_SYMLINKS)))
         case Directory => w.(pc := MakeDir(path, info.value.mode))
         case Regular =>
           var linked := RejectHardlink(info.value);
           if linked.Some? then w.(pc := Restore(|w.directories|, linked))
           else w.(pc := Copy(path, w.job.Target(path), Perm(info.value.mode), Opening))
         case Irregular => w.(pc := Restore(|w.directories|, Some(NewError(EInval, "unsupported file type")))))
    case MakeDir(path, mode) =>
      var target := w.job.Target(path);
      var e := if fault.Some? then fault else CreateErrno(s, target);
      if e.Some? then (Nothing, w.(pc := Restore(|w.directories|, Some(PathError("mkdir", target, e.value)))))
      else
        (Create(target, Dir(PlainAttr(TEMPORARY_DIRECTORY_MODE & !umask))),
         w.(pc := Read(path), directories := w.directories + [PendingMode(target, ExactDirectoryMode(mode))]))
    case Restore(left, walkErr) =>
      if left == 0 || left > |w.directories| then (Nothing, w.(pc := Done(walkErr)))
      else
        var d := w.directories[left - 1];
        if fault.Some? then (Nothing, w.(pc := Done(JoinErrors(walkErr, ToError("chmod", d.path, fault)))))
        else if d.path in s && !s[d.path].Symlink? then
          (Change(d.path, SetAttr(s[d.path], d.mode.attr)), w.(pc := Restore(left - 1, walkErr)))
        else (Nothing, w.(pc := Done(JoinErrors(walkErr, Some(PathError("chmod", d.path, Missing(s, d.path)))))))
    case _ => (Nothing, w)
  }

  predicate InTree(pc: Pc) {
    pc.StatRoot? || pc.MakeRoot? || pc.StatWalk? || pc.Read? || pc.Visit? || pc.MakeDir? || pc.Restore?
  }

  ghost function WorkerStep(s: Tree, w: Worker, umask: bv9, choice: Choice): (Effect, Worker) {
    if w.pc.Copy? then CopyStep(s, w, umask, choice)
    else if InTree(w.pc) then
      TreeStep(s, w, umask, choice.fault)
    else if w.pc.JoinSrc? || w.pc.WalkSrc? || w.pc.StatSrc? then (Nothing, SourceStep(s, w, choice.fault))
    else (Nothing, DestinationStep(s, w, choice.fault))
  }

  // ---------------------------------------------------------------------------------------------
  // All workers
  // ---------------------------------------------------------------------------------------------

  /** `owner` is bookkeeping: which worker created each node that was not there from the start. */
  datatype System = System(nodes: Tree, owner: map<Path, nat>, workers: seq<Worker>)

  /** A connection is accepted, or some worker makes its next call. */
  datatype Action = Arrive(job: Job) | Run(id: nat, choice: Choice)

  function Claim(owner: map<Path, nat>, e: Effect, id: nat): map<Path, nat> {
    match e
    case Create(p, _) => owner[p := id]
    case Delete(p) => owner - {p}
    case _ => owner
  }

  /** A file that is nobody's work is still the one that was opened: its bytes are not for the environment to choose. */
  function Settled(st: System, w: Worker, choice: Choice): Choice {
    if w.pc.Copy? && w.pc.from in st.nodes && w.pc.from !in st.owner then choice.(bytes := None) else choice
  }

  /** What worker `id` does, and becomes, when it makes its next call. */
  ghost function StepOf(st: System, umask: bv9, id: nat, choice: Choice): (Effect, Worker)
    requires id < |st.workers|
  {
    WorkerStep(st.nodes, st.workers[id], umask, Settled(st, st.workers[id], choice))
  }

  ghost function Next(st: System, umask: bv9, a: Action): System {
    match a
    case Arrive(job) => st.(workers := st.workers + [Worker(job, JoinSrc, [], [])])
    case Run(id, choice) =>
      if id >= |st.workers| then st
      else
        var (e, w) := StepOf(st, umask, id, choice);
        System(Apply(st.nodes, e), Claim(st.owner, e, id), st.workers[id := w])
  }

  /** Any interleaving. */
  ghost function Execution(n0: Tree, umask: bv9, actions: seq<Action>): System {
    if actions == [] then System(n0, map[], [])
    else Next(Execution(n0, umask, actions[..|actions| - 1]), umask, actions[|actions| - 1])
  }

  // ---------------------------------------------------------------------------------------------
  // Ownership
  // ---------------------------------------------------------------------------------------------

  predicate Owns(owner: map<Path, nat>, id: nat, p: Path) {
    p in owner && owner[p] == id
  }

  ghost predicate OwnsFile(s: Tree, owner: map<Path, nat>, id: nat, p: Path) {
    Owns(owner, id, p) && p in s && s[p].File?
  }

  ghost predicate OwnsDir(s: Tree, owner: map<Path, nat>, id: nat, p: Path) {
    Owns(owner, id, p) && IsDirAt(s, p)
  }

  /** The tree's root was created. */
  predicate TreeStarted(pc: Pc) {
    pc.StatWalk? || pc.Read? || pc.Visit? || pc.MakeDir? || pc.Copy? || pc.Restore? || pc == Done(None)
  }

  /** The worker has its new file open and may still write to it, change its mode, or remove it. */
  predicate FileInHand(pc: Pc) {
    pc.Copy? && (pc.at.Cloning? || pc.at.Chmodding? || pc.at.Closing? || pc.at.Removing?)
  }

  /** The new file is removed exactly when its copying failed. */
  predicate CleanupMatches(at: CopyPc) {
    && (at.Closing? ==> (at.cleanup <==> at.err.Some?))
    && (at.Removing? ==> at.err.Some?)
  }

  /** What a worker may yet touch is its own: the file in hand, and the directories whose modes it will restore. */
  ghost predicate Holding(s: Tree, owner: map<Path, nat>, id: nat, w: Worker) {
    && (FileInHand(w.pc) ==> OwnsFile(s, owner, id, w.pc.to))
    && (forall d :: d in w.directories ==> OwnsDir(s, owner, id, d.path))
    && (w.job.recursive && TreeStarted(w.pc) ==> w.directories != [] && w.directories[0].path == w.job.Destination())
    && (!w.job.recursive ==> !InTree(w.pc))
    && (w.pc.Copy? ==> CleanupMatches(w.pc.at))
    && (!w.job.recursive && w.pc.Copy? ==> w.pc.to == w.job.Destination())
    && (!w.job.recursive && (w.pc == Done(None) || (w.pc.Copy? && w.pc.at == ClosingSource(None))) ==>
          OwnsFile(s, owner, id, w.job.Destination()))
  }

  /**
   * The invariant: nodes that were there from the start are untouched; every other node has exactly one owner; and
   * every worker holds only what it owns.
   */
  ghost predicate Inv(n0: Tree, st: System) {
    && FileTree.Valid(st.nodes)
    && (forall p {:trigger st.nodes[p]} {:trigger p in n0} :: p in n0 ==> p in st.nodes && st.nodes[p] == n0[p])
    && (forall p :: p in st.owner <==> p in st.nodes && p !in n0)
    && (forall p :: p in st.owner ==> st.owner[p] < |st.workers|)
    && (forall id: nat :: id < |st.workers| ==> Holding(st.nodes, st.owner, id, st.workers[id]))
  }

  /** What a worker's call may do: create where nothing is, or act on a node of its own without changing its kind. */
  ghost predicate Legal(s: Tree, owner: map<Path, nat>, id: nat, e: Effect) {
    match e
    case Nothing => true
    case Create(p, n) => CreateErrno(s, p).None?
    case Change(p, n) => Owns(owner, id, p) && p in s && (s[p].Dir? <==> n.Dir?) && (s[p].File? <==> n.File?)
    case Delete(p) => OwnsFile(s, owner, id, p) && RemoveErrno(s, p).None?
  }

  /** Every step is legal, and leaves the worker holding only what is its own. */
  lemma StepIsLegal(s: Tree, owner: map<Path, nat>, id: nat, w: Worker, umask: bv9, choice: Choice)
    requires FileTree.Valid(s) && Holding(s, owner, id, w)
    ensures var (e, w') := WorkerStep(s, w, umask, choice); Legal(s, owner, id, e)
  {
    if w.pc.Restore? && 0 < w.pc.left <= |w.directories| {
      assert w.directories[w.pc.left - 1] in w.directories;
    }
  }

  lemma StepKeepsHolding(s: Tree, owner: map<Path, nat>, id: nat, w: Worker, umask: bv9, choice: Choice)
    requires FileTree.Valid(s) && Holding(s, owner, id, w)
    requires forall p :: p in owner ==> p in s
    ensures var (e, w') := WorkerStep(s, w, umask, choice); Holding(Apply(s, e), Claim(owner, e, id), id, w')
  {
    if w.pc.Copy? {
      CopyKeepsHolding(s, owner, id, w, umask, choice);
    } else if InTree(w.pc) {
      TreeKeepsHolding(s, owner, id, w, umask, choice.fault);
    } else if w.pc.JoinSrc? || w.pc.WalkSrc? || w.pc.StatSrc? {
      SourceKeepsHolding(s, owner, id, w, choice.fault);
    } else {
      DestinationKeepsHolding(s, owner, id, w, choice.fault);
    }
  }

  /** The worker is still only looking, or has just given up. */
  predicate Harmless(pc: Pc) {
    (!InTree(pc) || pc.StatRoot? || pc.MakeRoot?) && !pc.Copy? && pc != Done(None)
  }

  lemma HarmlessKeepsHolding(s: Tree, owner: map<Path, nat>, id: nat, w: Worker, pc: Pc)
    requires Holding(s, owner, id, w) && Harmless(pc) && (InTree(pc) ==> w.job.recursive)
    ensures Holding(s, owner, id, w.(pc := pc))
  {
  }

  lemma SourceKeepsHolding(s: Tree, owner: map<Path, nat>, id: nat, w: Worker, fault: Option<Errno>)
    requires Holding(s, owner, id, w) && (w.pc.JoinSrc? || w.pc.WalkSrc? || w.pc.StatSrc?)
    ensures Holding(s, owner, id, SourceStep(s, w, fault))
  {
    var w' := SourceStep(s, w, fault);
    assert Harmless(w'.pc) && w' == w.(pc := w'.pc);
    HarmlessKeepsHolding(s, owner, id, w, w'.pc);
  }

  /** Up to the last check a worker only looks, and after it goes on to the copying, with the mode it was given. */
  predicate OnlyLooked(w: Worker, w': Worker, mode: FileMode) {
    && w' == w.(pc := w'.pc)
    && match w'.pc
       case WalkDst(_, m) => m == mode
       case StatDst(m) => m == mode
       case JoinParent(m) => m == mode
       case StatParent(m) => m == mode
       case StatRoot => w.job.recursive
       case Copy(from, to, m, at) =>
         !w.job.recursive && from == w.job.Source() && to == w.job.Destination() && m == mode && at == Opening
       case Done(result) => result.Some?
       case _ => false
  }

  lemma ComponentOnlyLooks(s: Tree, w: Worker, i: nat, mode: FileMode, fault: Option<Errno>)
    requires i < |w.job.dst|
    ensures OnlyLooked(w, DestinationComponent(s, w, i, mode, fault), mode)
  {
  }

  lemma ItselfOnlyLooks(s: Tree, w: Worker, mode: FileMode, fault: Option<Errno>)
    ensures OnlyLooked(w, DestinationItself(s, w, mode, fault), mode)
  {
  }

  lemma ParentLeads(s: Tree, w: Worker, mode: FileMode, fault: Option<Errno>)
    ensures var w' := DestinationParent(s, w, mode, fault);
            && w' == w.(pc := w'.pc)
            && ((w'.pc.Done? && w'.pc.result.Some?)
                || (w.job.recursive && w'.pc == StatRoot)
                || (!w.job.recursive && w'.pc == Copy(w.job.Source(), w.job.Destination(), mode, Opening)))
  {
  }

  lemma ParentOnlyLooks(s: Tree, w: Worker, mode: FileMode, fault: Option<Errno>)
    ensures OnlyLooked(w, DestinationParent(s, w, mode, fault), mode)
  {
    ParentLeads(s, w, mode, fault);
  }

  predicate Resolving(pc: Pc) {
    pc.JoinDst? || pc.WalkDst? || pc.StatDst? || pc.JoinParent? || pc.StatParent?
  }

  lemma DestinationOnlyLooks(s: Tree, w: Worker, fault: Option<Errno>)
    ensures Resolving(w.pc) ==> OnlyLooked(w, DestinationStep(s, w, fault), w.pc.mode)
    ensures !Resolving(w.pc) ==> DestinationStep(s, w, fault) == w
  {
    match w.pc
    case WalkDst(i, mode) => if i < |w.job.dst| { ComponentOnlyLooks(s, w, i, mode, fault); }
    case StatDst(mode) => ItselfOnlyLooks(s, w, mode, fault);
    case StatParent(mode) => ParentOnlyLooks(s, w, mode, fault);
    case _ =>
  }

  /** The same for the source; what is found there is of the right kind and has the mode passed on. */
  lemma SourceOnlyLooks(s: Tree, w: Worker, fault: Option<Errno>)
    requires w.pc.JoinSrc? || w.pc.WalkSrc? || w.pc.StatSrc?
    ensures var w' := SourceStep(s, w, fault);
            && w' == w.(pc := w'.pc)
            && (w'.pc.JoinDst? ==>
                  && w.job.Source() in s && SourceFits(s[w.job.Source()], w.job.recursive)
                  && w'.pc.mode == ModeOf(s[w.job.Source()]))
            && (w'.pc.Done? ==> w'.pc.result.Some?)
            && (w'.pc.WalkSrc? || w'.pc.StatSrc? || w'.pc.JoinDst? || w'.pc.Done?)
  {
  }

  lemma DestinationKeepsHolding(s: Tree, owner: map<Path, nat>, id: nat, w: Worker, fault: Option<Errno>)
    requires Holding(s, owner, id, w)
    ensures Holding(s, owner, id, DestinationStep(s, w, fault))
  {
    DestinationOnlyLooks(s, w, fault);
    var w' := DestinationStep(s, w, fault);
    if w' != w && Harmless(w'.pc) {
      HarmlessKeepsHolding(s, owner, id, w, w'.pc);
    }
  }

  lemma CopyKeepsHolding(s: Tree, owner: map<Path, nat>, id: nat, w: Worker, umask: bv9, choice: Choice)
    requires FileTree.Valid(s) && Holding(s, owner, id, w) && w.pc.Copy?
    requires forall p :: p in owner ==> p in s
    ensures var (e, w') := CopyStep(s, w, umask, choice); Holding(Apply(s, e), Claim(owner, e, id), id, w')
  {
    match w.pc.at
    case Opening => IdleCopyKeepsHolding(s, owner, id, w, umask, choice);
    case Creating => CreatingKeepsHolding(s, owner, id, w, umask, choice);
    case Removing(_) => RemovingKeepsHolding(s, owner, id, w, umask, choice);
    case Closing(_, _) => IdleCopyKeepsHolding(s, owner, id, w, umask, choice);
    case ClosingSource(_) => IdleCopyKeepsHolding(s, owner, id, w, umask, choice);
    case _ => FillingKeepsHolding(s, owner, id, w, umask, choice);
  }

  lemma IdleCopyKeepsHolding(s: Tree, owner: map<Path, nat>, id: nat, w: Worker, umask: bv9, choice: Choice)
    requires Holding(s, owner, id, w) && w.pc.Copy? && (w.pc.at.Opening? || w.pc.at.Closing? || w.pc.at.ClosingSource?)
    ensures var (e, w') := CopyStep(s, w, umask, choice); Holding(Apply(s, e), Claim(owner, e, id), id, w')
  {
  }

  lemma CreatingKeepsHolding(s: Tree, owner: map<Path, nat>, id: nat, w: Worker, umask: bv9, choice: Choice)
    requires Holding(s, owner, id, w) && w.pc.Copy? && w.pc.at.Creating?
    requires forall p :: p in owner ==> p in s
    ensures var (e, w') := CopyStep(s, w, umask, choice); Holding(Apply(s, e), Claim(owner, e, id), id, w')
  {
  }

  lemma FillingKeepsHolding(s: Tree, owner: map<Path, nat>, id: nat, w: Worker, umask: bv9, choice: Choice)
    requires Holding(s, owner, id, w) && w.pc.Copy? && (w.pc.at.Cloning? || w.pc.at.Chmodding?)
    ensures var (e, w') := CopyStep(s, w, umask, choice); Holding(Apply(s, e), Claim(owner, e, id), id, w')
  {
  }

  lemma RemovingKeepsHolding(s: Tree, owner: map<Path, nat>, id: nat, w: Worker, umask: bv9, choice: Choice)
    requires Holding(s, owner, id, w) && w.pc.Copy? && w.pc.at.Removing?
    ensures var (e, w') := CopyStep(s, w, umask, choice); Holding(Apply(s, e), Claim(owner, e, id), id, w')
  {
  }

  lemma TreeKeepsHolding(s: Tree, owner: map<Path, nat>, id: nat, w: Worker, umask: bv9, fault: Option<Errno>)
    requires FileTree.Valid(s) && Holding(s, owner, id, w) && InTree(w.pc)
    requires forall p :: p in owner ==> p in s
    ensures var (e, w') := TreeStep(s, w, umask, fault); Holding(Apply(s, e), Claim(owner, e, id), id, w')
  {
    if w.pc.MakeRoot? || w.pc.MakeDir? {
      MakingKeepsHolding(s, owner, id, w, umask, fault);
    } else if w.pc.Restore? {
      RestoringKeepsHolding(s, owner, id, w, umask, fault);
    } else {
      LookingKeepsHolding(s, owner, id, w, umask, fault);
    }
  }

  lemma MakingKeepsHolding(s: Tree, owner: map<Path, nat>, id: nat, w: Worker, umask: bv9, fault: Option<Errno>)
    requires Holding(s, owner, id, w) && (w.pc.MakeRoot? || w.pc.MakeDir?)
    requires forall p :: p in owner ==> p in s
    ensures var (e, w') := TreeStep(s, w, umask, fault); Holding(Apply(s, e), Claim(owner, e, id), id, w')
  {
  }

  lemma RestoringKeepsHolding(s: Tree, owner: map<Path, nat>, id: nat, w: Worker, umask: bv9, fault: Option<Errno>)
    requires Holding(s, owner, id, w) && w.pc.Restore?
    ensures var (e, w') := TreeStep(s, w, umask, fault); Holding(Apply(s, e), Claim(owner, e, id), id, w')
  {
  }

  lemma LookingKeepsHolding(s: Tree, owner: map<Path, nat>, id: nat, w: Worker, umask: bv9, fault: Option<Errno>)
    requires Holding(s, owner, id, w) && (w.pc.StatRoot? || w.pc.StatWalk? || w.pc.Read? || w.pc.Visit?)
    ensures var (e, w') := TreeStep(s, w, umask, fault); Holding(Apply(s, e), Claim(owner, e, id), id, w')
  {
  }

  /** A worker's legal step does not touch what another worker holds. */
  lemma OthersKeepHolding(s: Tree, owner: map<Path, nat>, id: nat, e: Effect, other: nat, w: Worker)
    requires other != id && Holding(s, owner, other, w) && Legal(s, owner, id, e)
    ensures Holding(Apply(s, e), Claim(owner, e, id), other, w)
  {
  }

  lemma NextKeepsInv(n0: Tree, st: System, umask: bv9, a: Action)
    requires FileTree.Valid(n0) && Inv(n0, st)
    ensures Inv(n0, Next(st, umask, a))
  {
    if a.Run? && a.id < |st.workers| {
      var (e, w) := StepOf(st, umask, a.id, a.choice);
      StepIsLegal(st.nodes, st.owner, a.id, st.workers[a.id], umask, Settled(st, st.workers[a.id], a.choice));
      StepKeepsHolding(st.nodes, st.owner, a.id, st.workers[a.id], umask, Settled(st, st.workers[a.id], a.choice));
      forall other: nat | other < |st.workers| && other != a.id
        ensures Holding(Apply(st.nodes, e), Claim(st.owner, e, a.id), other, st.workers[other])
      {
        OthersKeepHolding(st.nodes, st.owner, a.id, e, other, st.workers[other]);
      }
      LegalKeepsNodes(n0, st, a.id, e);
    }
  }

  lemma LegalKeepsNodes(n0: Tree, st: System, id: nat, e: Effect)
    requires Inv(n0, st) && Legal(st.nodes, st.owner, id, e) && id < |st.workers|
    ensures var s, owner := Apply(st.nodes, e), Claim(st.owner, e, id);
            && FileTree.Valid(s)
            && (forall p :: p in n0 ==> p in s && s[p] == n0[p])
            && (forall p :: p in owner <==> p in s && p !in n0)
            && (forall p :: p in owner ==> owner[p] < |st.workers|)
  {
    match e
    case Nothing =>
    case Create(p, n) => AddKeepsValid(st.nodes, p, n);
    case Change(p, n) => UpdateKeepsValid(st.nodes, p, n);
    case Delete(p) => RemoveKeepsValid(st.nodes, p);
  }

  /** The ownership invariant holds after any interleaving of any requests with any failures. */
  lemma {:induction false} InvAlways(n0: Tree, umask: bv9, actions: seq<Action>)
    requires FileTree.Valid(n0)
    ensures Inv(n0, Execution(n0, umask, actions))
    decreases |actions|
  {
    if actions != [] {
      InvAlways(n0, umask, actions[..|actions| - 1]);
      NextKeepsInv(n0, Execution(n0, umask, actions[..|actions| - 1]), umask, actions[|actions| - 1]);
    }
  }

  ghost predicate NoLinkOwned(st: System) {
    forall p :: p in st.owner && p in st.nodes ==> !st.nodes[p].Symlink?
  }

  lemma NextMakesNoLinks(n0: Tree, st: System, umask: bv9, a: Action)
    requires FileTree.Valid(n0) && Inv(n0, st)
    requires NoLinkOwned(st)
    ensures NoLinkOwned(Next(st, umask, a))
  {
    if a.Run? && a.id < |st.workers| {
      StepIsLegal(st.nodes, st.owner, a.id, st.workers[a.id], umask, Settled(st, st.workers[a.id], a.choice));
    }
  }

  lemma {:induction false} OwnNodesAreNoLinks(n0: Tree, umask: bv9, actions: seq<Action>)
    requires FileTree.Valid(n0)
    ensures NoLinkOwned(Execution(n0, umask, actions))
  {
    if actions != [] {
      var before := actions[..|actions| - 1];
      OwnNodesAreNoLinks(n0, umask, before);
      InvAlways(n0, umask, before);
      NextMakesNoLinks(n0, Execution(n0, umask, before), umask, actions[|actions| - 1]);
    }
  }

  /**
   * No worker makes or removes a symbolic link. So where a path leads never changes, whatever the workers do while it
   * is being resolved, and resolving it may count as one step.
   */
  lemma ResolvingIsOneStep(n0: Tree, umask: bv9, actions: seq<Action>, root: Path, parts: seq<string>)
    requires FileTree.Valid(n0)
    ensures SameLinks(n0, Execution(n0, umask, actions).nodes)
    ensures Resolved(Execution(n0, umask, actions).nodes, root, [], parts, 0) == Resolved(n0, root, [], parts, 0)
  {
    InvAlways(n0, umask, actions);
    OwnNodesAreNoLinks(n0, umask, actions);
    var st := Execution(n0, umask, actions);
    forall p | p in st.nodes && st.nodes[p].Symlink? ensures p in n0 && n0[p] == st.nodes[p] {
      assert p !in st.owner;
    }
    ResolvedByLinks(n0, st.nodes, root, [], parts, 0);
  }

  /**
   * No clobbering. In every reachable state, every further step leaves alone what was there from the start and what
   * other workers created: a worker changes, chmods or removes only nodes it created itself and still owns, and creates
   * only where nothing is.
   */
  lemma NoClobber(n0: Tree, umask: bv9, actions: seq<Action>, a: Action)
    requires FileTree.Valid(n0)
    ensures var st := Execution(n0, umask, actions);
            var st' := Next(st, umask, a);
            && (forall p :: p in n0 ==> p in st'.nodes && st'.nodes[p] == n0[p])
            && (forall p :: p in st.nodes && (a.Run? ==> !Owns(st.owner, a.id, p)) ==>
                  p in st'.nodes && st'.nodes[p] == st.nodes[p])
            && (forall p :: p in st'.nodes && p !in n0 ==> p in st'.owner && st'.owner[p] < |st'.workers|)
            && (a.Run? && a.id < |st.workers| ==>
                  Legal(st.nodes, st.owner, a.id, StepOf(st, umask, a.id, a.choice).0))
  {
    var st := Execution(n0, umask, actions);
    InvAlways(n0, umask, actions);
    NextKeepsInv(n0, st, umask, a);
    if a.Run? && a.id < |st.workers| {
      StepIsLegal(st.nodes, st.owner, a.id, st.workers[a.id], umask, Settled(st, st.workers[a.id], a.choice));
    }
  }

  /** A node changes owner only by being removed first; while it exists it has the owner that created it. */
  lemma OwnerIsForLife(n0: Tree, umask: bv9, actions: seq<Action>, a: Action, p: Path)
    requires FileTree.Valid(n0)
    requires p in Execution(n0, umask, actions).owner && p in Next(Execution(n0, umask, actions), umask, a).owner
    ensures Next(Execution(n0, umask, actions), umask, a).owner[p] == Execution(n0, umask, actions).owner[p]
  {
    var st := Execution(n0, umask, actions);
    InvAlways(n0, umask, actions);
    if a.Run? && a.id < |st.workers| {
      StepIsLegal(st.nodes, st.owner, a.id, st.workers[a.id], umask, Settled(st, st.workers[a.id], a.choice));
    }
  }

  /** A worker that reports success owns its destination, and the destination exists. */
  ghost predicate Succeeded(w: Worker) { w.pc == Done(None) }

  ghost predicate Failed(w: Worker) { w.pc.Done? && w.pc.result.Some? }

  lemma SuccessOwnsDestination(n0: Tree, umask: bv9, actions: seq<Action>, id: nat)
    requires FileTree.Valid(n0)
    requires var st := Execution(n0, umask, actions); id < |st.workers| && Succeeded(st.workers[id])
    ensures var st := Execution(n0, umask, actions);
            var dst := st.workers[id].job.Destination();
            && Owns(st.owner, id, dst) && dst in st.nodes && dst !in n0
            && (if st.workers[id].job.recursive then st.nodes[dst].Dir? else st.nodes[dst].File?)
  {
    InvAlways(n0, umask, actions);
    var st := Execution(n0, umask, actions);
    var w := st.workers[id];
    assert Holding(st.nodes, st.owner, id, w);
    if w.job.recursive {
      assert w.directories[0] in w.directories;
    }
  }

  /** Of all requests for one destination, whatever fails and however they interleave, at most one reports success. */
  lemma AtMostOneSuccess(n0: Tree, umask: bv9, actions: seq<Action>, i: nat, j: nat)
    requires FileTree.Valid(n0)
    requires var st := Execution(n0, umask, actions);
             && i < |st.workers| && j < |st.workers|
             && Succeeded(st.workers[i]) && Succeeded(st.workers[j])
             && st.workers[i].job.Destination() == st.workers[j].job.Destination()
    ensures i == j
  {
    SuccessOwnsDestination(n0, umask, actions, i);
    SuccessOwnsDestination(n0, umask, actions, j);
  }
}
