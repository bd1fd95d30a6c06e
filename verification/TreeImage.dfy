/**
 * What a partly built copy of a directory tree looks like (the state internal/tree/tree.go moves through).
 */
module TreeImages {
  import opened Wrappers
  import opened Protocol
  import opened FileTree
  import opened WalkOrder
  import opened Kernels

  datatype PendingMode = PendingMode(path: Path, mode: FileMode)

  /** `exactDirectoryMode`: permission, setuid, setgid and sticky, without the type. */
  function ExactDirectoryMode(m: FileMode): FileMode { FileMode(Regular, m.attr) }

  /** `RejectHardlink`. */
  function RejectHardlink(info: FileInfo): Option<Error> {
    if info.nlink > 1 then Some(NewError(EInval, "hard links are not supported")) else None
  }

  /** Why the walk stops at a node, if it does. */
  function Rejection(n: Node): Option<Error> {
    match n
    case Symlink(_) => Some(NewError(EInval, "symlinks are not supported"))
    case Dir(_) => None
    case File(_, _, nlink) => if nlink > 1 then Some(NewError(EInval, "hard links are not supported")) else None
    case Other(_) => Some(NewError(EInval, "unsupported file type"))
  }

  predicate Clonable(n: Node) { Rejection(n).None? }

  /** Directories and files with a single name can be cloned; everything else is refused with EINVAL and its reason. */
  lemma RejectionSays(n: Node)
    ensures Clonable(n) <==> n.Dir? || (n.File? && n.nlink <= 1)
    ensures !Clonable(n) ==>
              ResponseFromError(Rejection(n))
              == FailureResponse(EInval, if n.Symlink? then "symlinks are not supported"
                                         else if n.File? then "hard links are not supported"
                                         else "unsupported file type")
  {
  }

  /** The finished copy of a node: a directory keeps all its attributes, a file its content and permission bits. */
  function Finished(n: Node): Node
    requires Clonable(n)
  {
    match n
    case Dir(attr) => Dir(attr)
    case File(content, attr, _) => File(content, PlainAttr(attr.perm), 1)
  }

  /** The copy as first created: directories wait with the temporary mode. */
  function Fresh(n: Node): Node
    requires Clonable(n)
  {
    if n.Dir? then TEMPORARY else Finished(n)
  }

  /** Neither path is at or below the other. */
  predicate Apart(src: Path, dst: Path) {
    !(src <= dst) && !(dst <= src)
  }

  /** Where the copy of `p` goes. */
  function Relocate(src: Path, dst: Path, p: Path): Path
    requires src <= p
  {
    dst + p[|src|..]
  }

  /** Which node `q` is the copy of. */
  function Origin(src: Path, dst: Path, q: Path): Path
    requires dst <= q
  {
    src + q[|dst|..]
  }

  lemma RelocateOrigin(src: Path, dst: Path, p: Path)
    requires src <= p
    ensures dst <= Relocate(src, dst, p) && Origin(src, dst, Relocate(src, dst, p)) == p
  {
  }

  lemma OriginRelocate(src: Path, dst: Path, q: Path)
    requires dst <= q
    ensures src <= Origin(src, dst, q) && Relocate(src, dst, Origin(src, dst, q)) == q
  {
  }

  /** Each entry of `done` is in the tree below `src` and can be cloned. */
  ghost predicate Copyable(s0: Tree, src: Path, done: seq<Path>) {
    forall p :: p in done ==> src <= p && p in s0 && Clonable(s0[p])
  }

  /**
   * `s` is `s0` plus, under `dst`, the copies of exactly the entries in `done`; directories in `restored` already have
   * their final attributes, the others the temporary mode.
   */
  ghost predicate Built(s0: Tree, s: Tree, src: Path, dst: Path, done: seq<Path>, restored: set<Path>)
    requires Copyable(s0, src, done)
  {
    && (forall q {:trigger q in s} :: q in s <==> q in s0 || (dst <= q && Origin(src, dst, q) in done))
    && (forall q {:trigger s[q]} :: q in s0 ==> s[q] == s0[q])
    && (forall q {:trigger s[q]} :: q in s && q !in s0 ==>
          s[q] == if q in restored then Finished(s0[Origin(src, dst, q)]) else Fresh(s0[Origin(src, dst, q)]))
  }

  lemma NothingBelowAbsent(s: Tree, dst: Path, q: Path)
    requires FileTree.Valid(s) && dst !in s && dst <= q
    ensures q !in s
  {
    assert q[..|dst|] == dst;
    assert |q| == |dst| ==> q == dst;
    if q in s && |dst| < |q| {
      AncestorsAreDirs(s, q, |dst|);
    }
  }

  lemma BuiltAtStart(s0: Tree, s: Tree, src: Path, dst: Path)
    requires src in s0 && s0[src].Dir? && (dst in s0 ==> s0[dst] == TEMPORARY) && s == s0[dst := TEMPORARY]
    ensures Copyable(s0, src, [src]) && Built(s0, s, src, dst, [src], {})
  {
    forall q | dst <= q && Origin(src, dst, q) == src ensures q == dst {
      OriginRelocate(src, dst, q);
    }
    RelocateOrigin(src, dst, src);
    assert Relocate(src, dst, src) == dst;
  }

  /** Creating one more copy. */
  lemma BuiltGrows(s0: Tree, s: Tree, src: Path, dst: Path, done: seq<Path>, p: Path)
    requires Copyable(s0, src, done) && Built(s0, s, src, dst, done, {})
    requires src <= p && p in s0 && Clonable(s0[p]) && Relocate(src, dst, p) !in s
    ensures Copyable(s0, src, done + [p])
    ensures Built(s0, s[Relocate(src, dst, p) := Fresh(s0[p])], src, dst, done + [p], {})
  {
    RelocateOrigin(src, dst, p);
    var s' := s[Relocate(src, dst, p) := Fresh(s0[p])];
    forall q ensures q in s' <==> q in s0 || (dst <= q && Origin(src, dst, q) in done + [p]) {
      if dst <= q && Origin(src, dst, q) == p {
        OriginRelocate(src, dst, q);
      }
    }
  }

  /** A leftover outside the copies is carried along as if it had been there from the start. */
  lemma BuiltWithLeftover(s0: Tree, s: Tree, src: Path, dst: Path, done: seq<Path>, t: Path, left: Node)
    requires Copyable(s0, src, done) && Built(s0, s, src, dst, done, {})
    requires t !in s && t !in done
    ensures Copyable(s0[t := left], src, done)
    ensures Built(s0[t := left], s[t := left], src, dst, done, {})
  {
    var s', b := s[t := left], s0[t := left];
    forall q ensures q in s' <==> q in b || (dst <= q && Origin(src, dst, q) in done) {
    }
    forall q | q in s' && q !in b
      ensures s'[q] == Fresh(b[Origin(src, dst, q)])
    {
      assert q in s && q !in s0;
    }
  }

  // ---------------------------------------------------------------------------------------------
  // The list of directories whose modes wait to be restored
  // ---------------------------------------------------------------------------------------------

  /** What the walk has recorded after creating the copies of `done`, in order. */
  ghost function PendingModes(s0: Tree, src: Path, dst: Path, done: seq<Path>): seq<PendingMode>
    requires Copyable(s0, src, done)
  {
    if done == [] then []
    else
      var front, p := done[..|done| - 1], done[|done| - 1];
      PendingModes(s0, src, dst, front)
      + if s0[p].Dir? then [PendingMode(Relocate(src, dst, p), ExactDirectoryMode(Info(s0[p]).mode))] else []
  }

  lemma CopyablePrefix(s0: Tree, src: Path, done: seq<Path>, n: nat)
    requires Copyable(s0, src, done) && n <= |done|
    ensures Copyable(s0, src, done[..n])
  {
    assert forall x :: x in done[..n] ==> x in done;
  }

  lemma PendingModesStep(s0: Tree, src: Path, dst: Path, done: seq<Path>, p: Path)
    requires Copyable(s0, src, done + [p])
    ensures Copyable(s0, src, done)
    ensures PendingModes(s0, src, dst, done + [p]) == PendingModes(s0, src, dst, done)
              + if s0[p].Dir? then [PendingMode(Relocate(src, dst, p), ExactDirectoryMode(Info(s0[p]).mode))] else []
  {
    assert p in done + [p];
    assert forall x :: x in done ==> x in done + [p];
    assert (done + [p])[..|done|] == done;
  }

  /** `d` is recorded exactly for the copies of directories. */
  lemma {:induction false} PendingModesMembers(s0: Tree, src: Path, dst: Path, done: seq<Path>)
    requires Copyable(s0, src, done)
    ensures forall d :: d in PendingModes(s0, src, dst, done) ==>
              && dst <= d.path && Origin(src, dst, d.path) in done && s0[Origin(src, dst, d.path)].Dir?
              && d.mode == ExactDirectoryMode(Info(s0[Origin(src, dst, d.path)]).mode)
    ensures forall p :: p in done && s0[p].Dir? ==>
              PendingMode(Relocate(src, dst, p), ExactDirectoryMode(Info(s0[p]).mode))
                in PendingModes(s0, src, dst, done)
    decreases |done|
  {
    if done != [] {
      var p := done[|done| - 1];
      assert p in done;
      CopyablePrefix(s0, src, done, |done| - 1);
      assert forall x :: x in done ==> x == p || x in done[..|done| - 1];
      PendingModesMembers(s0, src, dst, done[..|done| - 1]);
      RelocateOrigin(src, dst, p);
    }
  }

  lemma {:induction false} PathLessUnderPrefix(p: Path, a: Path, b: Path)
    ensures PathLess(p + a, p + b) <==> PathLess(a, b)
    decreases |p|
  {
    if p == [] {
      assert p + a == a && p + b == b;
    } else {
      NameLessTotal(p[0], p[0]);
      assert (p + a)[1..] == p[1..] + a && (p + b)[1..] == p[1..] + b;
      PathLessUnderPrefix(p[1..], a, b);
    }
  }

  lemma RelocateMonotonic(src: Path, dst: Path, p: Path, q: Path)
    requires src <= p && src <= q && PathLess(p, q)
    ensures PathLess(Relocate(src, dst, p), Relocate(src, dst, q))
  {
    assert p == src + p[|src|..] && q == src + q[|src|..];
    PathLessUnderPrefix(src, p[|src|..], q[|src|..]);
    PathLessUnderPrefix(dst, p[|src|..], q[|src|..]);
  }

  function PathsIn(dirs: seq<PendingMode>): seq<Path> {
    seq(|dirs|, i requires 0 <= i < |dirs| => dirs[i].path)
  }

  /** In walk order, the copies of earlier directories come before the copy of the last entry. */
  lemma LastIsGreatest(s0: Tree, src: Path, dst: Path, done: seq<Path>)
    requires Copyable(s0, src, done) && StrictlySorted(done) && done != []
    ensures var front, p := done[..|done| - 1], done[|done| - 1];
            && Copyable(s0, src, front) && src <= p
            && forall d :: d in PendingModes(s0, src, dst, front) ==> PathLess(d.path, Relocate(src, dst, p))
  {
    var front, p := done[..|done| - 1], done[|done| - 1];
    assert p in done;
    CopyablePrefix(s0, src, done, |done| - 1);
    PendingModesMembers(s0, src, dst, front);
    forall d | d in PendingModes(s0, src, dst, front) ensures PathLess(d.path, Relocate(src, dst, p)) {
      var o := Origin(src, dst, d.path);
      var j :| 0 <= j < |front| && front[j] == o;
      assert PathLess(done[j], p);
      OriginRelocate(src, dst, d.path);
      RelocateMonotonic(src, dst, o, p);
    }
  }

  /** The recorded list is in walk order: no duplicates, and each directory after its ancestors. */
  lemma {:induction false} PendingModesSorted(s0: Tree, src: Path, dst: Path, done: seq<Path>)
    requires Copyable(s0, src, done) && StrictlySorted(done)
    ensures StrictlySorted(PathsIn(PendingModes(s0, src, dst, done)))
    decreases |done|
  {
    if done != [] {
      var front, p := done[..|done| - 1], done[|done| - 1];
      assert p in done;
      CopyablePrefix(s0, src, done, |done| - 1);
      PendingModesSorted(s0, src, dst, front);
      var dirs := PendingModes(s0, src, dst, front);
      if s0[p].Dir? {
        LastIsGreatest(s0, src, dst, done);
        var last := PendingMode(Relocate(src, dst, p), ExactDirectoryMode(Info(s0[p]).mode));
        assert PathsIn(dirs + [last]) == PathsIn(dirs) + [last.path];
        assert PendingModes(s0, src, dst, done) == dirs + [last];
      } else {
        assert PendingModes(s0, src, dst, done) == dirs;
      }
    }
  }

  // ---------------------------------------------------------------------------------------------
  // The finished copy
  // ---------------------------------------------------------------------------------------------

  /** Under `dst` the same relative paths as under `src`, each the finished copy; everything else as it was. */
  ghost predicate IsTreeClone(s0: Tree, s: Tree, src: Path, dst: Path) {
    && (forall rel :: dst + rel in s <==> src + rel in s0)
    && (forall rel :: src + rel in s0 ==> Clonable(s0[src + rel]))
    && (forall rel :: src + rel in s0 ==> dst + rel in s && s[dst + rel] == Finished(s0[src + rel]))
    && (forall q :: !(dst <= q) ==> (q in s <==> q in s0) && (q in s0 ==> s[q] == s0[q]))
  }

  /**
   * What a clone is, part by part: a directory has the permission bits, setuid, setgid and sticky of its source; a file
   * its source's content and permission bits, nothing above them, and a single name.
   */
  lemma CloneMeaning(s0: Tree, s: Tree, src: Path, dst: Path, rel: Path)
    requires IsTreeClone(s0, s, src, dst) && src + rel in s0
    ensures dst + rel in s && (s0[src + rel].Dir? || s0[src + rel].File?)
    ensures s0[src + rel].Dir? ==>
              var was, made := s0[src + rel].attr, s[dst + rel];
              && made.Dir? && made.attr.perm == was.perm
              && made.attr.setuid == was.setuid && made.attr.setgid == was.setgid && made.attr.sticky == was.sticky
    ensures s0[src + rel].File? ==>
              var was, made := s0[src + rel], s[dst + rel];
              && made.File? && made.content == was.content && made.nlink == 1
              && made.attr == Attr(was.attr.perm, false, false, false)
  {
    RejectionSays(s0[src + rel]);
  }

  lemma CompleteIsClone(s0: Tree, s: Tree, src: Path, dst: Path, done: seq<Path>, restored: set<Path>)
    requires FileTree.Valid(s0) && dst !in s0
    requires forall p :: p in done <==> p in s0 && src <= p
    requires Copyable(s0, src, done) && Built(s0, s, src, dst, done, restored)
    requires forall p :: p in done && s0[p].Dir? ==> Relocate(src, dst, p) in restored
    ensures IsTreeClone(s0, s, src, dst)
  {
    forall rel
      ensures dst + rel in s <==> src + rel in s0
      ensures src + rel in s0 ==> src + rel in done && dst + rel in s && s[dst + rel] == Finished(s0[src + rel])
    {
      NothingBelowAbsent(s0, dst, dst + rel);
      assert Origin(src, dst, dst + rel) == src + rel;
      assert Relocate(src, dst, src + rel) == dst + rel;
    }
  }
}
