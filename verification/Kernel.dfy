/**
 * The file system as one process sees it: mutable nodes behind the `os` calls the repository uses.
 *
 * Any call may fail for a reason the model does not know (`faults`, indexed by kind of call and by time). Otherwise a
 * call does what FileTree says, except that a directory this process created is guarded by its own owner bits: no
 * search, read or write through one that lacks them.
 */
module Kernels {
  import opened Wrappers
  import opened Protocol
  import opened FileTree
  import opened WalkOrder
  import Paths

  datatype Call =
    | LstatCall | ReadlinkCall | ReadDirCall | MkdirCall | OpenCall | CreateCall | WriteCall
    | CloneCall | ChmodCall | CloseCall | RemoveCall

  /** An open file, known by the path it was opened at: no file in the model is ever renamed or replaced while open. */
  datatype Handle = Handle(path: Path)

  const OWNER_RWX: bv9 := 0x1C0
  const OWNER_R: bv9 := 0x100
  const OWNER_W: bv9 := 0x80
  const OWNER_X: bv9 := 0x40

  const TEMPORARY_DIRECTORY_MODE: bv9 := 0x1C0

  function PlainAttr(perm: bv9): Attr { Attr(perm, false, false, false) }

  /** What a directory created with the temporary mode starts with. */
  const TEMPORARY := Dir(PlainAttr(TEMPORARY_DIRECTORY_MODE))

  function ErrnoText(e: Errno): string {
    match e
    case ENOENT => "no such file or directory"
    case ENOTDIR => "not a directory"
    case EEXIST => "file exists"
    case ENOTEMPTY => "directory not empty"
    case EPERM => "operation not permitted"
    case EACCES => "permission denied"
    case EOPNOTSUPP => "operation not supported"
    case EXDEV => "invalid cross-device link"
    case EISDIR => "is a directory"
    case EINVAL => "invalid argument"
    case ELOOP => "too many levels of symbolic links"
    case EIO => "input/output error"
  }

  /** `*fs.PathError`. */
  function PathError(op: string, p: Path, e: Errno): Error {
    Protocol.Leaf(Sys(e), op + " " + Paths.Render(true, p) + ": " + ErrnoText(e))
  }

  /** `os.IsNotExist`: unlike the protocol's classification it does not count ENOTDIR. */
  predicate OsIsNotExist(e: Error) {
    e.Leaf? && (e.cause == Sys(ENOENT) || e.cause == ErrNotExist)
  }

  // ---------------------------------------------------------------------------------------------
  // Permission on directories the process created
  // ---------------------------------------------------------------------------------------------

  predicate OwnerMay(s: Tree, mine: set<Path>, p: Path, bits: bv9) {
    p in mine && IsDirAt(s, p) ==> s[p].attr.perm & bits == bits
  }

  predicate Searchable(s: Tree, mine: set<Path>, p: Path) {
    forall i | 0 <= i < |p| :: OwnerMay(s, mine, p[..i], OWNER_X)
  }

  /** Every directory that is the process's own gives its owner all rights. */
  ghost predicate LetsIn(s: Tree, mine: set<Path>) {
    forall p :: p in mine ==> OwnerMay(s, mine, p, OWNER_RWX)
  }

  lemma AllOwnerBits(perm: bv9)
    requires perm & OWNER_RWX == OWNER_RWX
    ensures perm & OWNER_R == OWNER_R && perm & OWNER_W == OWNER_W && perm & OWNER_X == OWNER_X
  {
  }

  lemma OwnerMayAll(s: Tree, mine: set<Path>, p: Path)
    requires LetsIn(s, mine)
    ensures OwnerMay(s, mine, p, OWNER_R) && OwnerMay(s, mine, p, OWNER_W) && OwnerMay(s, mine, p, OWNER_X)
  {
    if p in mine && IsDirAt(s, p) {
      assert OwnerMay(s, mine, p, OWNER_RWX);
      AllOwnerBits(s[p].attr.perm);
    }
  }

  lemma LetInEverywhere(s: Tree, mine: set<Path>, p: Path)
    ensures LetsIn(s, mine) ==>
              && Searchable(s, mine, p)
              && OwnerMay(s, mine, p, OWNER_R) && OwnerMay(s, mine, p, OWNER_W)
  {
    if LetsIn(s, mine) {
      OwnerMayAll(s, mine, p);
      forall i | 0 <= i < |p| ensures OwnerMay(s, mine, p[..i], OWNER_X) {
        OwnerMayAll(s, mine, p[..i]);
      }
    }
  }

  // ---------------------------------------------------------------------------------------------
  // Outcomes
  // ---------------------------------------------------------------------------------------------

  function LookupOutcome(s: Tree, mine: set<Path>, fault: Option<Errno>, p: Path): Option<Errno> {
    if fault.Some? then fault
    else if !Searchable(s, mine, p) then Some(EACCES)
    else if p in s then None
    else Some(Missing(s, p))
  }

  function ReadDirOutcome(s: Tree, mine: set<Path>, fault: Option<Errno>, p: Path): Option<Errno> {
    var lookup := LookupOutcome(s, mine, fault, p);
    if lookup.Some? then lookup
    else if !s[p].Dir? then Some(ENOTDIR)
    else if !OwnerMay(s, mine, p, OWNER_R) then Some(EACCES)
    else None
  }

  function CreateOutcome(s: Tree, mine: set<Path>, fault: Option<Errno>, p: Path): Option<Errno> {
    if fault.Some? then fault
    else if !Searchable(s, mine, p) then Some(EACCES)
    else if CreateErrno(s, p).Some? then CreateErrno(s, p)
    else if !OwnerMay(s, mine, Parent(p), OWNER_W) then Some(EACCES)
    else None
  }

  function RemoveOutcome(s: Tree, mine: set<Path>, fault: Option<Errno>, p: Path): Option<Errno> {
    if fault.Some? then fault
    else if !Searchable(s, mine, p) then Some(EACCES)
    else if RemoveErrno(s, p).Some? then RemoveErrno(s, p)
    else if p != [] && !OwnerMay(s, mine, Parent(p), OWNER_W) then Some(EACCES)
    else None
  }

  function CloneOutcome(s: Tree, fault: Option<Errno>, src: Path): Option<Errno> {
    if fault.Some? then fault else CloneErrno(s, src)
  }

  function ToError(op: string, p: Path, e: Option<Errno>): Option<Error> {
    if e.Some? then Some(PathError(op, p, e.value)) else None
  }

  /** An unknown failure, with this error number, of a call of one of these kinds in this stretch of time. */
  ghost predicate FailedWith(faults: (Call, nat) -> Option<Errno>, calls: set<Call>, from: nat, to: nat, e: Errno) {
    exists c, t :: c in calls && from <= t < to && faults(c, t) == Some(e)
  }

  /** The error is answered as the failure of such a call. */
  ghost predicate Blamed(faults: (Call, nat) -> Option<Errno>, calls: set<Call>, from: nat, to: nat, err: Error) {
    exists e :: FailedWith(faults, calls, from, to, e) && Answers(err, e)
  }

  lemma FailureIsBlamed(faults: (Call, nat) -> Option<Errno>, c: Call, t: nat, from: nat, to: nat, calls: set<Call>,
                        op: string, p: Path)
    requires c in calls && from <= t < to && faults(c, t).Some?
    ensures Blamed(faults, calls, from, to, PathError(op, p, faults(c, t).value))
  {
    LeafAnswer(faults(c, t).value, op + " " + Paths.Render(true, p) + ": " + ErrnoText(faults(c, t).value));
    assert FailedWith(faults, calls, from, to, faults(c, t).value);
  }

  lemma StillBlamed(faults: (Call, nat) -> Option<Errno>, calls: set<Call>, from: nat, to: nat, err: Error,
                    calls': set<Call>, from': nat, to': nat)
    requires Blamed(faults, calls, from, to, err) && calls <= calls' && from' <= from && to <= to'
    ensures Blamed(faults, calls', from', to', err)
  {
    var e :| FailedWith(faults, calls, from, to, e) && Answers(err, e);
    var c, t :| c in calls && from <= t < to && faults(c, t) == Some(e);
    assert FailedWith(faults, calls', from', to', e);
  }

  ghost predicate Truthful(faults: (Call, nat) -> Option<Errno>) {
    forall c, t :: faults(c, t).Some? ==> faults(c, t).value !in {ENOENT, ENOTDIR, EEXIST, ENOTEMPTY}
  }

  /** Names in lexical order, as `os.ReadDir` returns them. */
  method SortedNames(names: set<string>) returns (r: seq<string>)
    ensures Ascending(r)
    ensures forall x :: x in r <==> x in names
  {
    r := [];
    var rest := names;
    while rest != {}
      invariant Ascending(r)
      invariant rest <= names
      invariant forall x :: x in names <==> x in r || x in rest
      invariant forall i, x | 0 <= i < |r| && x in rest :: NameLess(r[i], x)
      decreases |rest|
    {
      LeastNameExists(rest);
      var m :| m in rest && forall x :: x in rest && x != m ==> NameLess(m, x);
      r := r + [m];
      rest := rest - {m};
    }
  }

  class Kernel {
    var nodes: Tree
    var mine: set<Path>
    var clock: nat
    const faults: (Call, nat) -> Option<Errno>
    const umask: bv9

    constructor (nodes: Tree, umask: bv9, faults: (Call, nat) -> Option<Errno>)
      requires FileTree.Valid(nodes) && umask & OWNER_RWX == 0 && Truthful(faults)
      ensures Valid() && this.nodes == nodes && mine == {} && this.umask == umask && this.faults == faults
    {
      this.nodes, this.mine, this.clock, this.umask, this.faults := nodes, {}, 0, umask, faults;
    }

    /**
     * The umask leaves the owner's bits alone; unknown failures do not pretend that a name is there or is not; and what
     * the process created as a directory still is one.
     */
    ghost predicate Valid()
      reads this
    {
      && FileTree.Valid(nodes)
      && umask & OWNER_RWX == 0
      && Truthful(faults)
      && forall p :: p in mine ==> IsDirAt(nodes, p)
    }

    /** The directories the process created let it in. */
    ghost predicate Admits()
      reads this
    {
      LetsIn(nodes, mine)
    }

    /** From a time on, no call of these kinds fails for an unknown reason. */
    ghost predicate Never(calls: set<Call>, from: nat) {
      forall c, t :: c in calls && from <= t ==> faults(c, t).None?
    }

    /** From a time on, no call fails for an unknown reason. */
    ghost predicate Quiet(from: nat) {
      forall c, t :: from <= t ==> faults(c, t).None?
    }

    method Lstat(p: Path) returns (r: Result<FileInfo, Error>)
      requires Valid() && NoLinkAbove(nodes, p)
      modifies `clock
      ensures Valid() && clock == old(clock) + 1
      ensures r == match LookupOutcome(nodes, mine, faults(LstatCall, old(clock)), p)
                   case Some(e) => Err(PathError("lstat", p, e))
                   case None => Ok(Info(nodes[p]))
    {
      var e := LookupOutcome(nodes, mine, faults(LstatCall, clock), p);
      clock := clock + 1;
      r := if e.Some? then Err(PathError("lstat", p, e.value)) else Ok(Info(nodes[p]));
    }

    method Readlink(p: Path) returns (r: Result<string, Error>)
      requires Valid() && p in nodes && nodes[p].Symlink?
      modifies `clock
      ensures Valid() && clock == old(clock) + 1
      ensures faults(ReadlinkCall, old(clock)).Some? ==>
                r == Err(PathError("readlink", p, faults(ReadlinkCall, old(clock)).value))
      ensures faults(ReadlinkCall, old(clock)).None? ==> r == Ok(nodes[p].target)
    {
      var fault := faults(ReadlinkCall, clock);
      clock := clock + 1;
      r := if fault.Some? then Err(PathError("readlink", p, fault.value)) else Ok(nodes[p].target);
    }

    method ReadDir(p: Path) returns (r: Result<seq<Path>, Error>)
      requires Valid() && NoLinkAbove(nodes, p)
      modifies `clock
      ensures Valid() && clock == old(clock) + 1
      ensures var e := ReadDirOutcome(nodes, mine, faults(ReadDirCall, old(clock)), p);
              && (e.Some? ==> r == Err(PathError("open", p, e.value)))
              && (e.None? ==> r == Ok(ChildPaths(nodes, p)))
    {
      var e := ReadDirOutcome(nodes, mine, faults(ReadDirCall, clock), p);
      clock := clock + 1;
      if e.Some? {
        return Err(PathError("open", p, e.value));
      }
      var names := SortedNames(ChildNames(nodes, p));
      SortedNamesAreContents(nodes, p, names);
      ContentsUnique(nodes, p, PathsOf(p, names), ChildPaths(nodes, p));
      r := Ok(PathsOf(p, names));
    }

    method Mkdir(p: Path, perm: bv9) returns (r: Option<Error>)
      requires Valid() && NoLinkAbove(nodes, p)
      modifies `nodes, `mine, `clock
      ensures Valid() && clock == old(clock) + 1
      ensures r == ToError("mkdir", p, CreateOutcome(old(nodes), old(mine), faults(MkdirCall, old(clock)), p))
      ensures r.None? ==> nodes == old(nodes)[p := Dir(PlainAttr(perm & !umask))] && mine == old(mine) + {p}
      ensures r.Some? ==> nodes == old(nodes) && mine == old(mine)
    {
      var e := CreateOutcome(nodes, mine, faults(MkdirCall, clock), p);
      clock := clock + 1;
      if e.None? {
        AddKeepsValid(nodes, p, Dir(PlainAttr(perm & !umask)));
        nodes, mine := nodes[p := Dir(PlainAttr(perm & !umask))], mine + {p};
      }
      r := ToError("mkdir", p, e);
    }

    /** `os.Open`: opening for reading also succeeds on a directory. */
    method Open(p: Path) returns (r: Result<Handle, Error>)
      requires Valid() && NoLinkAbove(nodes, p) && (p in nodes ==> !nodes[p].Symlink?)
      modifies `clock
      ensures Valid() && clock == old(clock) + 1
      ensures r == match LookupOutcome(nodes, mine, faults(OpenCall, old(clock)), p)
                   case Some(e) => Err(PathError("open", p, e))
                   case None => Ok(Handle(p))
    {
      var e := LookupOutcome(nodes, mine, faults(OpenCall, clock), p);
      clock := clock + 1;
      r := if e.Some? then Err(PathError("open", p, e.value)) else Ok(Handle(p));
    }

    /** `os.OpenFile` with O_CREATE|O_EXCL. */
    method OpenExcl(p: Path, perm: bv9) returns (r: Result<Handle, Error>)
      requires Valid() && NoLinkAbove(nodes, p)
      modifies `nodes, `clock
      ensures Valid() && clock == old(clock) + 1
      ensures var e := CreateOutcome(old(nodes), mine, faults(CreateCall, old(clock)), p);
              && (e.Some? ==> r == Err(PathError("open", p, e.value)) && nodes == old(nodes))
              && (e.None? ==> r == Ok(Handle(p)) && nodes == old(nodes)[p := File([], PlainAttr(perm & !umask), 1)])
    {
      var e := CreateOutcome(nodes, mine, faults(CreateCall, clock), p);
      clock := clock + 1;
      if e.Some? {
        return Err(PathError("open", p, e.value));
      }
      AddKeepsValid(nodes, p, File([], PlainAttr(perm & !umask), 1));
      nodes := nodes[p := File([], PlainAttr(perm & !umask), 1)];
      r := Ok(Handle(p));
    }

    /** Writing to a file just created; a failed write may leave any part of the bytes behind. */
    method Write(h: Handle, bytes: Content) returns (r: Option<Error>)
      requires Valid() && h.path in nodes && nodes[h.path].File?
      modifies `nodes, `clock
      ensures Valid() && clock == old(clock) + 1
      ensures r == ToError("write", h.path, faults(WriteCall, old(clock)))
      ensures exists content :: nodes == old(nodes)[h.path := old(nodes)[h.path].(content := content)]
      ensures r.None? ==>
                nodes == old(nodes)[h.path := old(nodes)[h.path].(content := old(nodes)[h.path].content + bytes)]
    {
      var fault := faults(WriteCall, clock);
      clock := clock + 1;
      var n := if fault.Some? then |bytes| / 2 else |bytes|;
      var content := nodes[h.path].content + bytes[..n];
      assert fault.None? ==> bytes[..n] == bytes;
      nodes := nodes[h.path := nodes[h.path].(content := content)];
      r := ToError("write", h.path, fault);
    }

    /** The reflink itself: the destination's content becomes the source's. */
    method Clone(dst: Handle, src: Handle) returns (r: Option<Error>)
      requires Valid() && dst.path in nodes && nodes[dst.path].File?
      modifies `nodes, `clock
      ensures Valid() && clock == old(clock) + 1
      ensures r == ToError("ficlone", src.path, CloneOutcome(old(nodes), faults(CloneCall, old(clock)), src.path))
      ensures r.Some? ==> nodes == old(nodes)
      ensures r.None? ==> src.path in old(nodes) && old(nodes)[src.path].File?
      ensures r.None? ==>
                nodes == old(nodes)[dst.path := old(nodes)[dst.path].(content := old(nodes)[src.path].content)]
    {
      var e := CloneOutcome(nodes, faults(CloneCall, clock), src.path);
      clock := clock + 1;
      if e.None? {
        nodes := nodes[dst.path := nodes[dst.path].(content := nodes[src.path].content)];
      }
      r := ToError("ficlone", src.path, e);
    }

    /** `(*os.File).Chmod`. */
    method Fchmod(h: Handle, mode: FileMode) returns (r: Option<Error>)
      requires Valid() && h.path in nodes && nodes[h.path].File?
      modifies `nodes, `clock
      ensures Valid() && clock == old(clock) + 1
      ensures r == ToError("chmod", h.path, faults(ChmodCall, old(clock)))
      ensures r.Some? ==> nodes == old(nodes)
      ensures r.None? ==> nodes == old(nodes)[h.path := SetAttr(old(nodes)[h.path], mode.attr)]
    {
      var fault := faults(ChmodCall, clock);
      clock := clock + 1;
      if fault.None? {
        nodes := nodes[h.path := SetAttr(nodes[h.path], mode.attr)];
      }
      r := ToError("chmod", h.path, fault);
    }

    /** `os.Chmod`. */
    method Chmod(p: Path, mode: FileMode) returns (r: Option<Error>)
      requires Valid() && NoLinkAbove(nodes, p) && (p in nodes ==> !nodes[p].Symlink?)
      modifies `nodes, `clock
      ensures Valid() && clock == old(clock) + 1
      ensures r == ToError("chmod", p, LookupOutcome(old(nodes), mine, faults(ChmodCall, old(clock)), p))
      ensures r.Some? ==> nodes == old(nodes)
      ensures r.None? ==> p in old(nodes) && nodes == old(nodes)[p := SetAttr(old(nodes)[p], mode.attr)]
    {
      var e := LookupOutcome(nodes, mine, faults(ChmodCall, clock), p);
      clock := clock + 1;
      if e.None? {
        UpdateKeepsValid(nodes, p, SetAttr(nodes[p], mode.attr));
        nodes := nodes[p := SetAttr(nodes[p], mode.attr)];
      }
      r := ToError("chmod", p, e);
    }

    method Close(h: Handle) returns (r: Option<Error>)
      requires Valid()
      modifies `clock
      ensures Valid() && clock == old(clock) + 1
      ensures r == ToError("close", h.path, faults(CloseCall, old(clock)))
    {
      r := ToError("close", h.path, faults(CloseCall, clock));
      clock := clock + 1;
    }

    method Remove(p: Path) returns (r: Option<Error>)
      requires Valid() && NoLinkAbove(nodes, p)
      modifies `nodes, `mine, `clock
      ensures Valid() && clock == old(clock) + 1
      ensures r == ToError("remove", p, RemoveOutcome(old(nodes), old(mine), faults(RemoveCall, old(clock)), p))
      ensures r.Some? ==> nodes == old(nodes) && mine == old(mine)
      ensures r.None? ==> nodes == old(nodes) - {p} && mine == old(mine) - {p}
    {
      var e := RemoveOutcome(nodes, mine, faults(RemoveCall, clock), p);
      clock := clock + 1;
      if e.None? {
        RemoveKeepsValid(nodes, p);
        nodes, mine := nodes - {p}, mine - {p};
      }
      r := ToError("remove", p, e);
    }
  }
}
