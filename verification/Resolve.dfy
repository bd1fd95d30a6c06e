/**
 * The file-system half of internal/validate/validate.go: from a relative path in a request to the node it means, with
 * every symbolic link on the way refused.
 *
 * SecureJoin (github.com/cyphar/filepath-securejoin) is modelled as the scoped resolver it is: a link's target goes in
 * front of the components still to come, an absolute one starting over at the root; `..` at the root stays there;
 * missing components are kept as they are; and at most 255 links are followed.
 */
module Resolve {
  import opened Wrappers
  import opened Protocol
  import opened Paths
  import opened Validate
  import FileTree
  import opened Kernels

  type Path = FileTree.Path
  type Tree = FileTree.Tree

  const MAX_SYMLINKS: nat := 255

  /** The path is named without a symbolic link, whether or not there is anything at it. */
  ghost predicate Plain(s: Tree, root: Path) {
    FileTree.NoLinkAbove(s, root) && (root in s ==> !s[root].Symlink?)
  }

  /** No node on the way from `root` down `parts`, the last included, is a symbolic link. */
  ghost predicate LinkFree(s: Tree, root: Path, parts: seq<string>) {
    forall i | 0 < i <= |parts| :: root + parts[..i] in s ==> !s[root + parts[..i]].Symlink?
  }

  lemma LinkFreePrefix(s: Tree, root: Path, parts: seq<string>, n: nat)
    requires LinkFree(s, root, parts) && n <= |parts|
    ensures LinkFree(s, root, parts[..n])
  {
    forall i | 0 < i <= n ensures parts[..n][..i] == parts[..i] {
    }
  }

  /** A link-free path below a plain root has no link above its last component either. */
  lemma LinkFreeAbove(s: Tree, root: Path, parts: seq<string>, next: string)
    requires FileTree.Valid(s) && Plain(s, root) && LinkFree(s, root, parts)
    ensures FileTree.NoLinkAbove(s, root + parts)
    ensures FileTree.NoLinkAbove(s, root + parts + [next])
  {
    var p := root + parts + [next];
    forall i | 0 <= i < |p| && p[..i] in s ensures !s[p[..i]].Symlink? {
      if i <= |root| {
        assert p[..i] == root[..i];
        assert i == |root| ==> p[..i] == root;
      } else {
        assert p[..i] == root + parts[..i - |root|];
      }
    }
    forall i | 0 <= i < |root + parts| ensures (root + parts)[..i] == p[..i] {
    }
  }

  /** A component that names an existing node in a link-free way; used to extend one. */
  lemma LinkFreeExtend(s: Tree, root: Path, parts: seq<string>, next: string)
    requires LinkFree(s, root, parts)
    requires root + parts + [next] in s ==> !s[root + parts + [next]].Symlink?
    ensures LinkFree(s, root, parts + [next])
  {
    forall i | 0 < i <= |parts| + 1 && root + (parts + [next])[..i] in s
      ensures !s[root + (parts + [next])[..i]].Symlink?
    {
      if i <= |parts| {
        assert (parts + [next])[..i] == parts[..i];
      } else {
        assert root + (parts + [next])[..i] == root + parts + [next];
      }
    }
  }

  /** Resolution counts a missing name and a name below a non-directory alike. */
  predicate SecureJoinIsNotExist(e: Error) {
    e.Leaf? && (e.cause == Sys(ENOENT) || e.cause == ErrNotExist || e.cause == Sys(ENOTDIR))
  }

  /** Where the resolver ends up when no call fails; None if it runs out of links to follow. */
  ghost function Resolved(s: Tree, root: Path, current: seq<string>, remaining: seq<string>,
                          linksWalked: nat): Option<Path>
    requires linksWalked <= MAX_SYMLINKS
    decreases MAX_SYMLINKS - linksWalked, |remaining|
  {
    if remaining == [] then Some(root + current)
    else
      var next := Push(true, current, remaining[0]);
      var p := root + next;
      if next == [] || p !in s || !s[p].Symlink? then Resolved(s, root, next, remaining[1..], linksWalked)
      else if linksWalked == MAX_SYMLINKS then None
      else
        var target := s[p].target;
        Resolved(s, root, if IsAbs(target) then [] else current, Split(target) + remaining[1..], linksWalked + 1)
  }

  /** The same symbolic links, whatever else there is. */
  ghost predicate SameLinks(s: Tree, t: Tree) {
    && (forall p :: p in s && s[p].Symlink? ==> p in t && t[p] == s[p])
    && (forall p :: p in t && t[p].Symlink? ==> p in s && s[p] == t[p])
  }

  /** Where a path leads depends on the symbolic links alone. */
  lemma {:induction false} ResolvedByLinks(s: Tree, t: Tree, root: Path, current: seq<string>, remaining: seq<string>,
                                           linksWalked: nat)
    requires SameLinks(s, t) && linksWalked <= MAX_SYMLINKS
    ensures Resolved(s, root, current, remaining, linksWalked) == Resolved(t, root, current, remaining, linksWalked)
    decreases MAX_SYMLINKS - linksWalked, |remaining|
  {
    if remaining != [] {
      var next := Push(true, current, remaining[0]);
      var p := root + next;
      if next == [] || p !in s || !s[p].Symlink? {
        ResolvedByLinks(s, t, root, next, remaining[1..], linksWalked);
      } else if linksWalked < MAX_SYMLINKS {
        var target := s[p].target;
        ResolvedByLinks(s, t, root, if IsAbs(target) then [] else current, Split(target) + remaining[1..],
                        linksWalked + 1);
      }
    }
  }

  // Looking at nodes and reading links is all that the checks do. An error of theirs is the answer that the file system
  // deserves, or that of a look that failed for an unknown reason.

  const LOOKS := {LstatCall, ReadlinkCall}

  /** A look failed for an unknown reason. */
  ghost predicate SomeLookFailed(faults: (Call, nat) -> Option<Errno>, from: nat, to: nat) {
    exists e :: FailedWith(faults, LOOKS, from, to, e)
  }

  /**
   * The error is answered as a look that failed, or as a path outside the root because such a look stopped the join.
   */
  ghost predicate LookBlamed(faults: (Call, nat) -> Option<Errno>, from: nat, to: nat, err: Error) {
    || Blamed(faults, LOOKS, from, to, err)
    || (SomeLookFailed(faults, from, to)
        && ResponseFromError(Some(err)) == FailureResponse(EPerm, "path must stay within the shared root"))
  }

  lemma LookFailed(faults: (Call, nat) -> Option<Errno>, c: Call, t: nat, op: string, p: Path)
    requires c in LOOKS && faults(c, t).Some?
    ensures SomeLookFailed(faults, t, t + 1)
    ensures Blamed(faults, LOOKS, t, t + 1, PathError(op, p, faults(c, t).value))
  {
    FailureIsBlamed(faults, c, t, t, t + 1, LOOKS, op, p);
  }

  lemma LookStillBlamed(faults: (Call, nat) -> Option<Errno>, from: nat, to: nat, from': nat, to': nat, err: Error)
    requires from' <= from && to <= to'
    ensures SomeLookFailed(faults, from, to) ==> SomeLookFailed(faults, from', to')
    ensures LookBlamed(faults, from, to, err) ==> LookBlamed(faults, from', to', err)
  {
    if e :| FailedWith(faults, LOOKS, from, to, e) {
      var c, t :| c in LOOKS && from <= t < to && faults(c, t) == Some(e);
      assert FailedWith(faults, LOOKS, from', to', e);
    }
    if Blamed(faults, LOOKS, from, to, err) {
      StillBlamed(faults, LOOKS, from, to, err, LOOKS, from', to');
    }
  }

  /** What one component of the path being resolved leads to. */
  datatype Hop = Stay(next: seq<string>) | Jump(target: string) | Stuck(error: Error)

  /** The look at one component: a link is read, anything else or nothing is kept. */
  method TakeHop(k: Kernel, root: Path, current: seq<string>, part: string, linksWalked: nat) returns (hop: Hop)
    requires k.Valid() && Plain(k.nodes, root)
    requires AllNames(current) && LinkFree(k.nodes, root, current) && '/' !in part && linksWalked <= MAX_SYMLINKS
    modifies k`clock
    ensures k.Valid() && old(k.clock) <= k.clock
    ensures hop.Stay? ==>
              hop.next == Push(true, current, part) && AllNames(hop.next) && LinkFree(k.nodes, root, hop.next)
    ensures hop.Jump? ==>
              && linksWalked < MAX_SYMLINKS && !LinkFree(k.nodes, root, Push(true, current, part))
              && Push(true, current, part) != []
              && var p := root + Push(true, current, part);
                  p in k.nodes && k.nodes[p].Symlink? && hop.target == k.nodes[p].target
    ensures hop.Stuck? && k.Admits() ==>
              || SomeLookFailed(k.faults, old(k.clock), k.clock)
              || (linksWalked == MAX_SYMLINKS && Push(true, current, part) != []
                  && var p := root + Push(true, current, part); p in k.nodes && k.nodes[p].Symlink?)
  {
    hide Blamed;
    ghost var start := k.clock;
    var next := Push(true, current, part);
    PushIsLinkFree(k.nodes, root, current, part);
    if next == [] {
      return Stay([]);
    }
    assert root + next == root + next[..|next|];
    var info := k.Lstat(root + next);
    if info.Err? && !SecureJoinIsNotExist(info.error) {
      if k.Admits() {
        LookFailed(k.faults, LstatCall, start, "lstat", root + next);
      }
      return Stuck(info.error);
    }
    if info.Err? || info.value.mode.kind != FileTree.SymbolicLink {
      NotALinkIsLinkFree(k.nodes, root, current, part);
      return Stay(next);
    }
    assert root + next in k.nodes && !LinkFree(k.nodes, root, next);
    hop := FollowLink(k, root, current, next, linksWalked);
    if hop.Stuck? && linksWalked < MAX_SYMLINKS {
      LookStillBlamed(k.faults, start + 1, k.clock, start, k.clock, hop.error);
    }
  }

  /** A link is read, if there are links left to follow. */
  method FollowLink(k: Kernel, root: Path, current: seq<string>, next: seq<string>, linksWalked: nat)
    returns (hop: Hop)
    requires k.Valid() && FileTree.NoLinkAbove(k.nodes, root + next) && linksWalked <= MAX_SYMLINKS
    requires root + next in k.nodes && k.nodes[root + next].Symlink?
    modifies k`clock
    ensures k.Valid() && old(k.clock) <= k.clock
    ensures hop.Jump? ==> linksWalked < MAX_SYMLINKS && hop.target == k.nodes[root + next].target
    ensures !hop.Stay?
    ensures hop.Stuck? && linksWalked < MAX_SYMLINKS && k.Admits() ==>
              SomeLookFailed(k.faults, old(k.clock), k.clock)
  {
    hide Blamed;
    if linksWalked == MAX_SYMLINKS {
      return Stuck(PathError("SecureJoin", root + current, ELOOP));
    }
    ghost var start := k.clock;
    var dest := k.Readlink(root + next);
    if dest.Err? && k.Admits() {
      LookFailed(k.faults, ReadlinkCall, start, "readlink", root + next);
    }
    hop := if dest.Err? then Stuck(dest.error) else Jump(dest.value);
  }

  /** The resolver is on the way down a path that has no links. */
  ghost predicate OnTheWay(goal: seq<string>, current: seq<string>, remaining: seq<string>) {
    (goal == [] && current == [] && remaining == [DOT]) || current + remaining == goal
  }

  lemma NextOnTheWay(goal: seq<string>, current: seq<string>, remaining: seq<string>)
    requires AllNames(goal) && OnTheWay(goal, current, remaining) && remaining != []
    ensures OnTheWay(goal, Push(true, current, remaining[0]), remaining[1..])
    ensures Push(true, current, remaining[0]) <= goal
  {
    if current + remaining == goal {
      assert goal[|current|] == remaining[0];
      assert current + [remaining[0]] + remaining[1..] == goal;
    }
  }

  /** A text that is already the clean relative path of ordinary names, with no link on the way. */
  ghost predicate Lexical(s: Tree, root: Path, path: string) {
    !IsAbs(path) && Clean(path) == path && AllNames(Components(path)) && LinkFree(s, root, Components(path))
  }

  lemma ResolvedStays(s: Tree, root: Path, current: seq<string>, part: string, rest: seq<string>, linksWalked: nat)
    requires linksWalked <= MAX_SYMLINKS
    requires var next := Push(true, current, part); next == [] || LinkFree(s, root, next)
    ensures Resolved(s, root, current, [part] + rest, linksWalked)
         == Resolved(s, root, Push(true, current, part), rest, linksWalked)
  {
    var next := Push(true, current, part);
    assert root + next == root + next[..|next|];
    assert ([part] + rest)[1..] == rest;
  }

  lemma ResolvedJumps(s: Tree, root: Path, current: seq<string>, part: string, rest: seq<string>, linksWalked: nat)
    requires linksWalked <= MAX_SYMLINKS && Push(true, current, part) != []
    requires var p := root + Push(true, current, part); p in s && s[p].Symlink?
    ensures var target := s[root + Push(true, current, part)].target;
            Resolved(s, root, current, [part] + rest, linksWalked)
            == if linksWalked == MAX_SYMLINKS then None
               else Resolved(s, root, if IsAbs(target) then [] else current, Split(target) + rest, linksWalked + 1)
  {
    assert ([part] + rest)[1..] == rest;
  }

  /**
   * A step of the resolver: still link-free, nearer the end, a plain push if there is no link, and to the same result.
   */
  ghost predicate Advanced(s: Tree, root: Path, current: seq<string>, part: string, rest: seq<string>, linksWalked: nat,
                           current': seq<string>, remaining': seq<string>, linksWalked': nat)
    requires linksWalked <= MAX_SYMLINKS
  {
    && AllNames(current') && LinkFree(s, root, current') && Slashless(remaining')
    && linksWalked <= linksWalked' <= MAX_SYMLINKS
    && (linksWalked' == linksWalked ==> remaining' == rest)
    && (LinkFree(s, root, Push(true, current, part)) ==>
          current' == Push(true, current, part) && remaining' == rest && linksWalked' == linksWalked)
    && Resolved(s, root, current, [part] + rest, linksWalked) == Resolved(s, root, current', remaining', linksWalked')
  }

  /** One component dealt with: the path so far, what is still to come, and the links followed. */
  method Advance(k: Kernel, root: Path, current: seq<string>, part: string, rest: seq<string>, linksWalked: nat)
    returns (r: Result<(seq<string>, seq<string>, nat), Error>)
    requires k.Valid() && Plain(k.nodes, root) && linksWalked <= MAX_SYMLINKS
    requires AllNames(current) && LinkFree(k.nodes, root, current) && '/' !in part && Slashless(rest)
    modifies k`clock
    ensures k.Valid() && old(k.clock) <= k.clock
    ensures r.Ok? ==> Advanced(k.nodes, root, current, part, rest, linksWalked, r.value.0, r.value.1, r.value.2)
    ensures r.Err? && k.Admits() ==>
              || SomeLookFailed(k.faults, old(k.clock), k.clock)
              || Resolved(k.nodes, root, current, [part] + rest, linksWalked).None?
  {
    var hop := TakeHop(k, root, current, part, linksWalked);
    match hop
    case Stuck(error) =>
      if k.Admits() && !SomeLookFailed(k.faults, old(k.clock), k.clock) {
        ResolvedJumps(k.nodes, root, current, part, rest, linksWalked);
      }
      r := Err(error);
    case Stay(next) =>
      ResolvedStays(k.nodes, root, current, part, rest, linksWalked);
      r := Ok((next, rest, linksWalked));
    case Jump(target) =>
      ResolvedJumps(k.nodes, root, current, part, rest, linksWalked);
      var restart: seq<string> := if IsAbs(target) then [] else current;
      r := Ok((restart, Split(target) + rest, linksWalked + 1));
  }

  /**
   * SecureJoin. Its result is below the root, made of ordinary names, and link-free, for every text and every file
   * system; and where the text is a clean path without links it is just the lexical join.
   */
  method SecureJoin(k: Kernel, root: Path, unsafePath: string) returns (r: Result<Path, Error>)
    requires k.Valid() && Plain(k.nodes, root)
    modifies k`clock
    ensures k.Valid() && old(k.clock) <= k.clock
    ensures r.Ok? ==> root <= r.value && AllNames(r.value[|root|..]) && LinkFree(k.nodes, root, r.value[|root|..])
    ensures r.Ok? && Lexical(k.nodes, root, unsafePath) ==> r.value == root + Components(unsafePath)
    ensures r.Ok? ==> Resolved(k.nodes, root, [], Split(unsafePath), 0) == Some(r.value)
    ensures r.Err? && k.Admits() ==>
              || SomeLookFailed(k.faults, old(k.clock), k.clock)
              || Resolved(k.nodes, root, [], Split(unsafePath), 0).None?
  {
    JoiningStarts(k.nodes, root, unsafePath);
    var current: seq<string>, linksWalked := [], 0;
    var remaining := Split(unsafePath);
    while remaining != []
      invariant k.Valid() && old(k.clock) <= k.clock
      invariant linksWalked <= MAX_SYMLINKS && Joining(k.nodes, root, unsafePath, current, remaining, linksWalked)
      decreases MAX_SYMLINKS - linksWalked, |remaining|
    {
      var part, rest := remaining[0], remaining[1..];
      assert remaining == [part] + rest;
      ghost var before := k.clock;
      var turn := Advance(k, root, current, part, rest, linksWalked);
      if turn.Err? {
        LookStillBlamed(k.faults, before, k.clock, old(k.clock), k.clock, turn.error);
        return Err(turn.error);
      }
      var (current', remaining', linksWalked') := turn.value;
      JoiningGoesOn(k.nodes, root, unsafePath, current, part, rest, linksWalked, current', remaining', linksWalked');
      current, remaining, linksWalked := current', remaining', linksWalked';
    }
    JoiningEnds(k.nodes, root, unsafePath, current, linksWalked);
    r := Ok(root + current);
  }

  /**
   * In the middle of a join: below the root and link-free, on the lexical way if there is one, and with the end in
   * sight.
   */
  ghost predicate Joining(s: Tree, root: Path, path: string, current: seq<string>, remaining: seq<string>,
                          linksWalked: nat)
    requires linksWalked <= MAX_SYMLINKS
  {
    && Slashless(remaining) && AllNames(current) && LinkFree(s, root, current)
    && (Lexical(s, root, path) ==> OnTheWay(Components(path), current, remaining))
    && Resolved(s, root, current, remaining, linksWalked) == Resolved(s, root, [], Split(path), 0)
  }

  lemma JoiningStarts(s: Tree, root: Path, path: string)
    ensures Joining(s, root, path, [], Split(path), 0)
  {
    if Lexical(s, root, path) {
      CleanTextSplits(path);
    }
  }

  lemma JoiningGoesOn(s: Tree, root: Path, path: string, current: seq<string>, part: string, rest: seq<string>,
                      linksWalked: nat, current': seq<string>, remaining': seq<string>, linksWalked': nat)
    requires linksWalked <= MAX_SYMLINKS && Joining(s, root, path, current, [part] + rest, linksWalked)
    requires Advanced(s, root, current, part, rest, linksWalked, current', remaining', linksWalked')
    ensures Joining(s, root, path, current', remaining', linksWalked')
  {
    if Lexical(s, root, path) {
      StillOnTheWay(s, root, Components(path), current, part, rest);
    }
  }

  lemma JoiningEnds(s: Tree, root: Path, path: string, current: seq<string>, linksWalked: nat)
    requires linksWalked <= MAX_SYMLINKS && Joining(s, root, path, current, [], linksWalked)
    ensures root <= root + current && (root + current)[|root|..] == current
    ensures Lexical(s, root, path) ==> current == Components(path)
    ensures Resolved(s, root, [], Split(path), 0) == Some(root + current)
  {
  }

  lemma StillOnTheWay(s: Tree, root: Path, goal: seq<string>, current: seq<string>, part: string, rest: seq<string>)
    requires AllNames(goal) && LinkFree(s, root, goal) && OnTheWay(goal, current, [part] + rest)
    ensures OnTheWay(goal, Push(true, current, part), rest)
    ensures LinkFree(s, root, Push(true, current, part))
  {
    assert ([part] + rest)[1..] == rest;
    NextOnTheWay(goal, current, [part] + rest);
    LinkFreePrefix(s, root, goal, |Push(true, current, part)|);
  }

  /** The components a clean relative text splits into: its own, or the single dot. */
  lemma CleanTextSplits(path: string)
    requires !IsAbs(path) && Clean(path) == path
    ensures Components(path) == [] ==> Split(path) == [DOT]
    ensures Components(path) != [] ==> Split(path) == Components(path)
  {
    ComponentsCanonical(path);
    if Components(path) == [] {
      SplitSlashless(DOT);
    } else {
      SplitJoin(Components(path));
    }
  }

  lemma PushIsLinkFree(s: Tree, root: Path, current: seq<string>, part: string)
    requires FileTree.Valid(s) && Plain(s, root)
    requires AllNames(current) && LinkFree(s, root, current) && '/' !in part
    ensures AllNames(Push(true, current, part)) && FileTree.NoLinkAbove(s, root + Push(true, current, part))
  {
    var next := Push(true, current, part);
    if IsName(part) {
      LinkFreeAbove(s, root, current, part);
      assert root + next == root + current + [part];
    } else if next == current {
      LinkFreeAbove(s, root, current, part);
    } else {
      LinkFreePrefix(s, root, current, |current| - 1);
      LinkFreeAbove(s, root, next, part);
    }
  }

  lemma NotALinkIsLinkFree(s: Tree, root: Path, current: seq<string>, part: string)
    requires LinkFree(s, root, current) && AllNames(current) && '/' !in part
    requires var p := root + Push(true, current, part); p in s ==> !s[p].Symlink?
    ensures LinkFree(s, root, Push(true, current, part))
  {
    if IsName(part) {
      assert root + Push(true, current, part) == root + current + [part];
      LinkFreeExtend(s, root, current, part);
    } else if Push(true, current, part) != current {
      LinkFreePrefix(s, root, current, |current| - 1);
    }
  }

  // ---------------------------------------------------------------------------------------------
  // rejectSymlinkComponents
  // ---------------------------------------------------------------------------------------------

  const NO_SYMLINKS := NewError(EInval, "symlinks are not supported")

  /** The first components all exist and none of them is a link. */
  ghost predicate Trodden(s: Tree, root: Path, parts: seq<string>, n: nat)
    requires n <= |parts|
  {
    forall i | 0 < i <= n :: root + parts[..i] in s && !s[root + parts[..i]].Symlink?
  }

  /**
   * The loop over the components of a clean relative path. Acceptance means the way is link-free and complete, the
   * last component being allowed to be missing if `allowMissingLeaf`.
   */
  method RejectSymlinkComponents(k: Kernel, root: Path, rel: string, allowMissingLeaf: bool, missingMessage: string)
    returns (err: Option<Error>)
    requires k.Valid() && Plain(k.nodes, root)
    requires rel == Render(false, Components(rel)) && AllNames(Components(rel))
    modifies k`clock
    ensures k.Valid() && old(k.clock) <= k.clock
    ensures var parts, p := Components(rel), root + Components(rel);
            && (err.None? ==>
                  && LinkFree(k.nodes, root, parts)
                  && (parts == [] || p in k.nodes || (allowMissingLeaf && FileTree.Missing(k.nodes, p) == ENOENT)))
            && (k.Admits() ==>
                  || err == Objection(k.nodes, root, parts, allowMissingLeaf, missingMessage)
                  || (err.Some? && Blamed(k.faults, LOOKS, old(k.clock), k.clock, err.value)))
  {
    err := None;
    ghost var goal := Components(rel);
    if rel == DOT {
      ComponentsOfRender(false, []);
      assert root + goal == root;
      return;
    }
    SplitJoinOfClean(rel);
    var parts := Split(rel);
    var i := 0;
    while i < |parts|
      invariant 0 <= i <= |parts| && err.None?
      invariant k.Valid() && old(k.clock) <= k.clock
      invariant Trodden(k.nodes, root, parts, i)
    {
      var stop;
      ghost var before := k.clock;
      stop, err := CheckComponent(k, root, parts, i, allowMissingLeaf, missingMessage);
      if stop {
        if err.Some? && Blamed(k.faults, LOOKS, before, k.clock, err.value) {
          StillBlamed(k.faults, LOOKS, before, k.clock, err.value, LOOKS, old(k.clock), k.clock);
        }
        return;
      }
      i := i + 1;
    }
    assert parts[..|parts|] == parts;
    TroddenIsLinkFree(k.nodes, root, parts, |parts|);
    NoObjection(k.nodes, root, parts, allowMissingLeaf, missingMessage);
  }

  /** The look at component `i`, everything before it having been walked. */
  method CheckComponent(k: Kernel, root: Path, parts: seq<string>, i: nat, allowMissingLeaf: bool,
                        missingMessage: string)
    returns (stop: bool, err: Option<Error>)
    requires k.Valid() && Plain(k.nodes, root) && i < |parts| && Trodden(k.nodes, root, parts, i)
    modifies k`clock
    ensures k.Valid() && old(k.clock) <= k.clock
    ensures !stop ==> err.None? && Trodden(k.nodes, root, parts, i + 1)
    ensures stop && err.None? ==>
              && LinkFree(k.nodes, root, parts) && allowMissingLeaf
              && root + parts !in k.nodes && FileTree.Missing(k.nodes, root + parts) == ENOENT
    ensures stop && k.Admits() ==>
              || err == Objection(k.nodes, root, parts, allowMissingLeaf, missingMessage)
              || (err.Some? && Blamed(k.faults, LOOKS, old(k.clock), k.clock, err.value))
  {
    stop, err := true, None;
    TroddenIsLinkFree(k.nodes, root, parts, i);
    LinkFreeAbove(k.nodes, root, parts[..i], parts[i]);
    var current := root + parts[..i] + [parts[i]];
    assert current == root + parts[..i + 1] && FileTree.Parent(current) == root + parts[..i];
    assert parts[..i] + [parts[i]] == parts[..i + 1] && parts[..|parts|] == parts;
    ghost var start := k.clock;
    var info := k.Lstat(current);
    if info.Ok? && info.value.mode.kind != FileTree.SymbolicLink {
      return false, None;
    }
    if k.faults(LstatCall, start).Some? {
      LookFailed(k.faults, LstatCall, start, "lstat", current);
    }
    if current in k.nodes ==> k.nodes[current].Symlink? {
      ObjectionAt(k.nodes, root, parts, i, allowMissingLeaf, missingMessage);
    }
    if info.Ok? {
      err := Some(NO_SYMLINKS);
    } else if !OsIsNotExist(info.error) {
      err := Some(info.error);
    } else if allowMissingLeaf && i == |parts| - 1 {
      LinkFreeExtend(k.nodes, root, parts[..i], parts[i]);
    } else {
      err := Some(WrapError(ENoEnt, missingMessage, info.error));
    }
  }

  lemma SplitJoinOfClean(rel: string)
    requires rel == Render(false, Components(rel)) && AllNames(Components(rel)) && rel != DOT
    ensures Split(rel) == Components(rel) && Components(rel) != []
  {
    if Components(rel) != [] {
      SplitJoin(Components(rel));
    }
  }

  lemma TroddenIsLinkFree(s: Tree, root: Path, parts: seq<string>, n: nat)
    requires n <= |parts| && Trodden(s, root, parts, n)
    ensures LinkFree(s, root, parts[..n])
    ensures n > 0 ==> root + parts[..n] in s && !s[root + parts[..n]].Symlink?
  {
    forall i | 0 < i <= n ensures parts[..n][..i] == parts[..i] {
    }
  }

  /**
   * What a complete and truthful look at a path objects to: a link on the way before anything else, then a missing
   * node, with the way to tell the caller depending on whether a directory or something else is in the last existing
   * place. The root itself is not looked at.
   */
  ghost function Objection(s: Tree, root: Path, parts: seq<string>, allowMissingLeaf: bool,
                           message: string): Option<Error> {
    if !LinkFree(s, root, parts) then Some(NO_SYMLINKS)
    else if parts == [] || root + parts in s then None
    else
      var q := FirstMissing(s, root, parts, 1);
      var e := PathError("lstat", q, FileTree.Missing(s, q));
      if !OsIsNotExist(e) then Some(e)
      else if allowMissingLeaf && q == root + parts then None
      else Some(WrapError(ENoEnt, message, e))
  }

  /** The shortest missing path on the way, from the `i`-th on. */
  ghost function FirstMissing(s: Tree, root: Path, parts: seq<string>, i: nat): Path
    requires i <= |parts|
    decreases |parts| - i
  {
    if i == |parts| || root + parts[..i] !in s then root + parts[..i] else FirstMissing(s, root, parts, i + 1)
  }

  lemma {:induction false} FirstMissingIs(s: Tree, root: Path, parts: seq<string>, i: nat, n: nat)
    requires 0 < i <= n + 1 <= |parts|
    requires Trodden(s, root, parts, n) && root + parts[..n + 1] !in s
    ensures FirstMissing(s, root, parts, i) == root + parts[..n + 1]
    decreases n + 1 - i
  {
    if i <= n {
      assert root + parts[..i] in s;
      FirstMissingIs(s, root, parts, i + 1, n);
    }
  }

  lemma MissingStaysMissing(s: Tree, root: Path, parts: seq<string>, n: nat)
    requires FileTree.Valid(s) && n <= |parts| && root + parts[..n] !in s
    ensures forall i | n <= i <= |parts| :: root + parts[..i] !in s
  {
    forall i | n <= i <= |parts| ensures root + parts[..i] !in s {
      var p := root + parts[..i];
      assert p[..|root| + n] == root + parts[..n];
      if p in s && n < i {
        FileTree.AncestorsAreDirs(s, p, |root| + n);
      }
    }
  }

  /** The loop's answer at the component it stops at is the objection to the whole path. */
  lemma ObjectionAt(s: Tree, root: Path, parts: seq<string>, n: nat, allowMissingLeaf: bool, message: string)
    requires FileTree.Valid(s) && n < |parts| && Trodden(s, root, parts, n)
    requires var q := root + parts[..n + 1]; q in s ==> s[q].Symlink?
    ensures var q := root + parts[..n + 1];
            Objection(s, root, parts, allowMissingLeaf, message) ==
              if q in s then Some(NO_SYMLINKS)
              else if FileTree.Missing(s, q) == ENOTDIR then Some(PathError("lstat", q, ENOTDIR))
              else if allowMissingLeaf && n == |parts| - 1 then None
              else Some(WrapError(ENoEnt, message, PathError("lstat", q, ENOENT)))
  {
    var q := root + parts[..n + 1];
    assert parts[..|parts|] == parts;
    TroddenIsLinkFree(s, root, parts, n);
    if q !in s {
      MissingStaysMissing(s, root, parts, n + 1);
      FirstMissingIs(s, root, parts, 1, n);
      assert |q| == |root + parts| <==> n == |parts| - 1;
    }
  }

  lemma NoObjection(s: Tree, root: Path, parts: seq<string>, allowMissingLeaf: bool, message: string)
    requires Trodden(s, root, parts, |parts|)
    ensures Objection(s, root, parts, allowMissingLeaf, message).None?
  {
    TroddenIsLinkFree(s, root, parts, |parts|);
    assert parts[..|parts|] == parts;
  }

  // ---------------------------------------------------------------------------------------------
  // ResolveSource and ResolveDestination
  // ---------------------------------------------------------------------------------------------

  /** The share root a service works in; `root` is never empty where this is used. */
  function RootPath(processDir: string, root: string): Path {
    Components(NormalizeRoot(processDir, root).GetOr(""))
  }

  /** Where a request's path lies on the host: the root, then its components. */
  function HostPath(processDir: string, root: string, rel: string): Path {
    RootPath(processDir, root) + Components(rel)
  }

  /** The share root is named without a symbolic link; it need not exist. */
  ghost predicate RootIsPlain(s: Tree, processDir: string, root: string) {
    IsAbs(processDir) && (root != "" ==> Plain(s, RootPath(processDir, root)))
  }

  /** The components of the directory a clean relative path is in; the path `.` is in itself. */
  function DirParts(parts: seq<string>): seq<string> {
    if parts == [] then [] else parts[..|parts| - 1]
  }

  /** `filepath.Dir` of a clean relative path. */
  function DirOf(rel: string): string {
    Render(false, DirParts(Components(rel)))
  }

  const OUTSIDE := "path must stay within the shared root"

  method ResolvePath(k: Kernel, processDir: string, root: string, rel: string)
    returns (r: Result<(Path, string, Path), Error>)
    requires k.Valid() && RootIsPlain(k.nodes, processDir, root)
    modifies k`clock
    ensures k.Valid() && old(k.clock) <= k.clock
    ensures r.Ok? ==>
              && root != "" && NormalizeRelative(rel) == Ok(r.value.1)
              && r.value.0 == RootPath(processDir, root)
              && (Lexical(k.nodes, r.value.0, r.value.1) ==> r.value.2 == HostPath(processDir, root, r.value.1))
    ensures root == "" ==> r == Err(NewError(EInval, "share root is required"))
    ensures root != "" && NormalizeRelative(rel).Err? ==> r == Err(NormalizeRelative(rel).error)
    ensures r.Ok? ==> !GivesUp(k.nodes, r.value.0, r.value.1)
    ensures root != "" && NormalizeRelative(rel).Ok? && r.Err? && k.Admits() ==>
              && ResponseFromError(Some(r.error)) == FailureResponse(EPerm, "path must stay within the shared root")
              && (|| SomeLookFailed(k.faults, old(k.clock), k.clock)
                  || GivesUp(k.nodes, RootPath(processDir, root), NormalizeRelative(rel).value))
  {
    var rootText := NormalizeRoot(processDir, root);
    if rootText.Err? {
      return Err(rootText.error);
    }
    var cleanRel := NormalizeRelative(rel);
    if cleanRel.Err? {
      return Err(cleanRel.error);
    }
    var rootPath := Components(rootText.value);
    var resolved := SecureJoin(k, rootPath, cleanRel.value);
    if resolved.Err? {
      return Err(WrapError(EPerm, OUTSIDE, resolved.error));
    }
    r := Ok((rootPath, cleanRel.value, resolved.value));
  }

  /** The normalised text is clean and relative, made of ordinary names. */
  lemma NormalizedIsClean(path: string)
    requires NormalizeRelative(path).Ok?
    ensures var rel := NormalizeRelative(path).value;
            !IsAbs(rel) && Clean(rel) == rel && rel == Render(false, Components(rel)) && AllNames(Components(rel))
  {
    var rel := NormalizeRelative(path).value;
    NormalizeMeaning(path);
    NormalizeByComponents(path);
    ComponentsCanonical(path);
    ComponentsOfRender(false, Components(path));
  }

  /** The resolver runs out of links to follow. */
  ghost predicate GivesUp(s: Tree, rootPath: Path, rel: string) {
    Resolved(s, rootPath, [], Split(rel), 0).None?
  }

  /** A path without links never exhausts the resolver. */
  lemma {:induction false} LexicalResolves(s: Tree, root: Path, goal: seq<string>, current: seq<string>,
                                           remaining: seq<string>, linksWalked: nat)
    requires AllNames(goal) && LinkFree(s, root, goal) && OnTheWay(goal, current, remaining)
    requires linksWalked <= MAX_SYMLINKS
    ensures Resolved(s, root, current, remaining, linksWalked) == Some(root + goal)
    decreases |remaining|
  {
    if remaining == [] {
      assert current + remaining == current;
    } else {
      NextOnTheWay(goal, current, remaining);
      var next := Push(true, current, remaining[0]);
      assert root + next == root + goal[..|next|];
      LexicalResolves(s, root, goal, next, remaining[1..], linksWalked);
    }
  }

  /** A relative link leads on from the directory it is in, and what follows it in the path follows its target. */
  lemma RelativeLink(s: Tree, root: Path, dir: seq<string>, name: string, target: seq<string>, rest: seq<string>,
                     linksWalked: nat)
    requires AllNames(dir) && IsName(name) && AllNames(target) && target != [] && AllNames(rest) && linksWalked < 255
    requires root + (dir + [name]) in s && s[root + (dir + [name])] == FileTree.Symlink(JoinSlash(target))
    requires LinkFree(s, root, dir + target + rest)
    ensures Resolved(s, root, dir, [name] + rest, linksWalked) == Some(root + (dir + target + rest))
  {
    assert ([name] + rest)[0] == name && ([name] + rest)[1..] == rest;
    SplitJoin(target);
    JoinStart(target);
    assert dir + (target + rest) == dir + target + rest;
    LexicalResolves(s, root, dir + target + rest, dir, target + rest, linksWalked + 1);
  }

  lemma AbsoluteSplit(target: seq<string>)
    requires AllNames(target) && target != []
    ensures IsAbs("/" + JoinSlash(target)) && Split("/" + JoinSlash(target)) == [""] + target
  {
    SplitJoin(target);
    assert ("/" + JoinSlash(target))[1..] == JoinSlash(target);
  }

  /** An absolute link leads on from the root. */
  lemma AbsoluteLink(s: Tree, root: Path, dir: seq<string>, name: string, target: seq<string>, rest: seq<string>,
                     linksWalked: nat)
    requires AllNames(dir) && IsName(name) && AllNames(target) && target != [] && AllNames(rest) && linksWalked < 255
    requires root + (dir + [name]) in s && s[root + (dir + [name])] == FileTree.Symlink("/" + JoinSlash(target))
    requires LinkFree(s, root, target + rest)
    ensures Resolved(s, root, dir, [name] + rest, linksWalked) == Some(root + (target + rest))
  {
    AbsoluteSplit(target);
    ResolvedJumps(s, root, dir, name, rest, linksWalked);
    assert [""] + target + rest == [""] + (target + rest);
    ResolvedStays(s, root, [], "", target + rest, linksWalked + 1);
    hide Resolved;
    assert [] + (target + rest) == target + rest;
    LexicalResolves(s, root, target + rest, [], target + rest, linksWalked + 1);
  }

  /** Whether the text of a clean path or its components are resolved makes no difference. */
  lemma GivesUpByComponents(s: Tree, rootPath: Path, rel: string)
    requires !IsAbs(rel) && Clean(rel) == rel
    ensures GivesUp(s, rootPath, rel) <==> Resolved(s, rootPath, [], Components(rel), 0).None?
  {
    CleanTextSplits(rel);
    if Components(rel) == [] {
      assert [DOT][1..] == [];
    }
  }

  lemma NamesResolve(s: Tree, root: Path, parts: seq<string>)
    requires AllNames(parts) && LinkFree(s, root, parts)
    ensures Resolved(s, root, [], parts, 0) == Some(root + parts)
  {
    assert [] + parts == parts;
    LexicalResolves(s, root, parts, [], parts, 0);
  }

  lemma CleanDoesNotGiveUp(s: Tree, rootPath: Path, rel: string)
    requires !IsAbs(rel) && Clean(rel) == rel && AllNames(Components(rel)) && LinkFree(s, rootPath, Components(rel))
    ensures !GivesUp(s, rootPath, rel)
  {
    CleanTextSplits(rel);
    assert [] + Split(rel) == Split(rel);
    LexicalResolves(s, rootPath, Components(rel), [], Split(rel), 0);
  }

  /** The node a source path means: it exists, and it is not a link. Nothing above it can be one. */
  ghost predicate SourceFound(s: Tree, processDir: string, root: string, rel: string) {
    && root != "" && NormalizeRelative(rel).Ok?
    && var p := HostPath(processDir, root, NormalizeRelative(rel).value);
    && p in s && !s[p].Symlink?
  }

  /** What a caller is told about a path that is refused before its own existence matters. */
  ghost function PathRefusal(s: Tree, processDir: string, root: string, rel: string): Option<Response> {
    if root == "" then Some(FailureResponse(EInval, "share root is required"))
    else if NormalizeRelative(rel).Err? then Some(ResponseFromError(Some(NormalizeRelative(rel).error)))
    else
      var clean := NormalizeRelative(rel).value;
      if GivesUp(s, RootPath(processDir, root), clean) then Some(FailureResponse(EPerm, OUTSIDE))
      else if !LinkFree(s, RootPath(processDir, root), Components(clean)) then
        Some(FailureResponse(EInval, "symlinks are not supported"))
      else None
  }

  lemma FoundIsLinkFree(s: Tree, root: Path, parts: seq<string>)
    requires FileTree.Valid(s) && root + parts in s && !s[root + parts].Symlink?
    ensures LinkFree(s, root, parts)
  {
    var p := root + parts;
    forall i | 0 < i <= |parts| && root + parts[..i] in s ensures !s[root + parts[..i]].Symlink? {
      assert p[..|root| + i] == root + parts[..i];
      if i < |parts| {
        FileTree.AncestorsAreDirs(s, p, |root| + i);
      } else {
        assert parts[..i] == parts;
      }
    }
  }

  /** What a caller is told about a source that is refused or not there. */
  ghost function Unfound(s: Tree, processDir: string, root: string, rel: string): Response {
    PathRefusal(s, processDir, root, rel).GetOr(FailureResponse(ENoEnt, "source not found"))
  }

  /**
   * ResolveSource. Whatever fails, success means the node at the lexical path, and a failure is answered as the file
   * system deserves or blames a look that failed: if none does, it succeeds exactly when that node exists and is no
   * link.
   */
  method ResolveSource(k: Kernel, processDir: string, root: string, rel: string)
    returns (r: Result<(Path, FileTree.FileInfo), Error>)
    requires k.Valid() && RootIsPlain(k.nodes, processDir, root)
    modifies k`clock
    ensures k.Valid() && old(k.clock) <= k.clock
    ensures r.Ok? ==>
              && SourceFound(k.nodes, processDir, root, rel)
              && var p := HostPath(processDir, root, NormalizeRelative(rel).value);
              && r.value == (p, FileTree.Info(k.nodes[p]))
    ensures r.Err? && k.Admits() ==>
              || LookBlamed(k.faults, old(k.clock), k.clock, r.error)
              || (!SourceFound(k.nodes, processDir, root, rel)
                  && ResponseFromError(Some(r.error)) == Unfound(k.nodes, processDir, root, rel))
  {
    var path := ResolvePath(k, processDir, root, rel);
    if path.Err? {
      if SourceFound(k.nodes, processDir, root, rel) {
        SourceFoundIsNotRefused(k.nodes, processDir, root, rel);
      }
      return Err(path.error);
    }
    NormalizedIsClean(rel);
    if SourceFound(k.nodes, processDir, root, rel) {
      SourceFoundIsNotRefused(k.nodes, processDir, root, rel);
    }
    var (rootPath, cleanRel, resolved) := path.value;
    ghost var joined := k.clock;
    var refused := RejectSymlinkComponents(k, rootPath, cleanRel, false, "source not found");
    if refused.Some? {
      if Blamed(k.faults, LOOKS, joined, k.clock, refused.value) {
        LookStillBlamed(k.faults, joined, k.clock, old(k.clock), k.clock, refused.value);
      } else if k.Admits() {
        ObjectionResponse(k.nodes, rootPath, Components(cleanRel), false, "source not found");
      }
      return Err(refused.value);
    }
    PlainBelow(k.nodes, rootPath, Components(cleanRel));
    ghost var walked := k.clock;
    var info := LookAtSource(k, resolved);
    if info.Err? {
      LookStillBlamed(k.faults, walked, k.clock, old(k.clock), k.clock, info.error);
    }
    r := if info.Ok? then Ok((resolved, info.value)) else Err(info.error);
  }

  method LookAtSource(k: Kernel, resolved: Path) returns (r: Result<FileTree.FileInfo, Error>)
    requires k.Valid() && Plain(k.nodes, resolved)
    modifies k`clock
    ensures k.Valid() && old(k.clock) <= k.clock
    ensures r.Ok? ==> resolved in k.nodes && r.value == FileTree.Info(k.nodes[resolved])
    ensures r.Err? && k.Admits() ==>
              || Blamed(k.faults, LOOKS, old(k.clock), k.clock, r.error)
              || (resolved !in k.nodes
                  && ResponseFromError(Some(r.error)) == FailureResponse(ENoEnt, "source not found"))
  {
    ghost var start := k.clock;
    r := k.Lstat(resolved);
    if k.faults(LstatCall, start).Some? {
      LookFailed(k.faults, LstatCall, start, "lstat", resolved);
    }
    if r.Err? && OsIsNotExist(r.error) {
      r := Err(WrapError(ENoEnt, "source not found", r.error));
    }
  }

  lemma SourceFoundIsNotRefused(s: Tree, processDir: string, root: string, rel: string)
    requires FileTree.Valid(s) && SourceFound(s, processDir, root, rel)
    ensures PathRefusal(s, processDir, root, rel).None?
  {
    NormalizedIsClean(rel);
    var clean := NormalizeRelative(rel).value;
    FoundIsLinkFree(s, RootPath(processDir, root), Components(clean));
    CleanDoesNotGiveUp(s, RootPath(processDir, root), clean);
  }

  /** The response an objection turns into. */
  lemma ObjectionResponse(s: Tree, root: Path, parts: seq<string>, allowMissingLeaf: bool, message: string)
    requires Objection(s, root, parts, allowMissingLeaf, message).Some?
    ensures LinkFree(s, root, parts) ==> parts != []
    ensures ResponseFromError(Objection(s, root, parts, allowMissingLeaf, message)) ==
              (if !LinkFree(s, root, parts) then FailureResponse(EInval, "symlinks are not supported")
               else if FileTree.Missing(s, FirstMissing(s, root, parts, 1)) == ENOENT then
                   FailureResponse(ENoEnt, message)
               else FailureResponse(ENoEnt, "source not found"))
  {
  }

  /** A destination can be created: it is below the root, absent, and its parent is a directory. */
  ghost predicate DestinationFree(s: Tree, processDir: string, root: string, rel: string) {
    && root != "" && NormalizeRelative(rel).Ok? && Components(NormalizeRelative(rel).value) != []
    && FileTree.CreateErrno(s, HostPath(processDir, root, NormalizeRelative(rel).value)).None?
  }

  /**
   * What a caller is told about a destination that is refused. A missing parent is told apart from a parent below
   * something that is not a directory, which is reported with the source's message.
   */
  ghost function DestinationRefusal(s: Tree, processDir: string, root: string, rel: string): Response {
    var refusal := PathRefusal(s, processDir, root, rel);
    if refusal.Some? then refusal.value
    else
      var parts := Components(NormalizeRelative(rel).GetOr(DOT));
      if HostPath(processDir, root, NormalizeRelative(rel).GetOr(DOT)) in s then
        FailureResponse(EExist, "destination already exists")
      else if FileTree.Missing(s, FirstMissing(s, RootPath(processDir, root), parts, if parts == [] then 0 else 1))
          == ENOENT then
        FailureResponse(ENoEnt, "destination parent does not exist")
      else FailureResponse(ENoEnt, "source not found")
  }

  /** Nothing is at `p`, and the deepest node above it is at its first `i` components. */
  ghost predicate Deepest(s: Tree, p: Path, i: nat) {
    i < |p| && p[..i] in s && p[..i + 1] !in s
  }

  /** Why a name is missing is decided by the deepest node above it. */
  lemma {:induction false} MissingBelow(s: Tree, p: Path, i: nat)
    requires FileTree.Valid(s) && Deepest(s, p, i)
    ensures p !in s && FileTree.Missing(s, p) == if s[p[..i]].Dir? then ENOENT else ENOTDIR
    decreases |p|
  {
    var above := FileTree.Parent(p);
    if i == |p| - 1 {
      assert above == p[..i] && p[..i + 1] == p;
    } else {
      assert above[..i] == p[..i] && above[..i + 1] == p[..i + 1];
      MissingBelow(s, above, i);
    }
  }

  lemma {:induction false} FirstMissingOnTheWay(s: Tree, root: Path, parts: seq<string>, i: nat) returns (j: nat)
    requires i <= |parts|
    ensures j <= |parts| && FirstMissing(s, root, parts, i) == root + parts[..j]
    ensures j == |parts| || root + parts[..j] !in s
    decreases |parts| - i
  {
    if i == |parts| || root + parts[..i] !in s {
      j := i;
    } else {
      j := FirstMissingOnTheWay(s, root, parts, i + 1);
    }
  }

  lemma FirstMissingIsBelow(s: Tree, p: Path, q: Path, i: nat)
    requires FileTree.Valid(s) && Deepest(s, p, i) && q <= p && q !in s
    ensures FileTree.Missing(s, q) == if s[p[..i]].Dir? then ENOENT else ENOTDIR
  {
    if |q| <= i {
      assert p[..i][..|q|] == q && p[..i][..i] == p[..i];
      if |q| < i {
        FileTree.AncestorsAreDirs(s, p[..i], |q|);
      }
      assert false;
    }
    assert q[..i] == p[..i] && q[..i + 1] == p[..i + 1];
    MissingBelow(s, q, i);
  }

  /**
   * A destination named without links is refused because it exists, because a directory above it is missing, or, in the
   * words for a missing source, because something above it is no directory.
   */
  lemma DestinationRefusalSays(s: Tree, processDir: string, root: string, rel: string, i: nat)
    requires FileTree.Valid(s) && root != "" && NormalizeRelative(rel).Ok?
    requires LinkFree(s, RootPath(processDir, root), Components(NormalizeRelative(rel).value))
    ensures var p := HostPath(processDir, root, NormalizeRelative(rel).value);
            var refusal := DestinationRefusal(s, processDir, root, rel);
            && (p in s ==> refusal == FailureResponse(EExist, "destination already exists"))
            && (Deepest(s, p, i) && s[p[..i]].Dir? && !DestinationFree(s, processDir, root, rel) ==>
                  refusal == FailureResponse(ENoEnt, "destination parent does not exist"))
            && (Deepest(s, p, i) && !s[p[..i]].Dir? ==> refusal == FailureResponse(ENoEnt, "source not found"))
  {
    NormalizedIsClean(rel);
    var rootPath, clean := RootPath(processDir, root), NormalizeRelative(rel).value;
    var parts, p := Components(clean), HostPath(processDir, root, clean);
    CleanDoesNotGiveUp(s, rootPath, clean);
    if Deepest(s, p, i) {
      var j := FirstMissingOnTheWay(s, rootPath, parts, if parts == [] then 0 else 1);
      assert parts[..|parts|] == parts;
      MissingBelow(s, p, i);
      FirstMissingIsBelow(s, p, rootPath + parts[..j], i);
    }
  }

  lemma FreeIsLinkFree(s: Tree, root: Path, parts: seq<string>)
    requires FileTree.Valid(s) && parts != [] && FileTree.CreateErrno(s, root + parts).None?
    ensures FileTree.Parent(root + parts) == root + parts[..|parts| - 1]
    ensures LinkFree(s, root, parts) && LinkFree(s, root, parts[..|parts| - 1])
  {
    var above := parts[..|parts| - 1];
    assert FileTree.Parent(root + parts) == root + above;
    FoundIsLinkFree(s, root, above);
    assert above + [parts[|parts| - 1]] == parts;
    assert root + above + [parts[|parts| - 1]] == root + parts;
    LinkFreeExtend(s, root, above, parts[|parts| - 1]);
  }

  lemma ParentOfCleanIsClean(rel: string)
    requires rel == Render(false, Components(rel)) && AllNames(Components(rel))
    ensures var dir := DirOf(rel);
            && !IsAbs(dir) && Clean(dir) == dir && Components(dir) == DirParts(Components(rel))
  {
    ComponentsOfRender(false, DirParts(Components(rel)));
  }

  /**
   * ResolveDestination. Whatever fails, success means the lexical path, absent from the tree, in its lexical parent, a
   * real directory, and a failure is answered as the file system deserves or blames a look that failed: if none does,
   * it succeeds exactly when that is so.
   */
  method ResolveDestination(k: Kernel, processDir: string, root: string, rel: string)
    returns (r: Result<(Path, Path), Error>)
    requires k.Valid() && RootIsPlain(k.nodes, processDir, root)
    modifies k`clock
    ensures k.Valid() && old(k.clock) <= k.clock
    ensures r.Ok? ==>
              && DestinationFree(k.nodes, processDir, root, rel)
              && r.value.0 == HostPath(processDir, root, NormalizeRelative(rel).value)
              && r.value.0 != [] && r.value.1 == FileTree.Parent(r.value.0)
    ensures r.Err? && k.Admits() ==>
              || LookBlamed(k.faults, old(k.clock), k.clock, r.error)
              || (!DestinationFree(k.nodes, processDir, root, rel)
                  && ResponseFromError(Some(r.error)) == DestinationRefusal(k.nodes, processDir, root, rel))
  {
    hide Blamed;
    if DestinationFree(k.nodes, processDir, root, rel) {
      FreeIsNotRefused(k.nodes, processDir, root, rel);
    }
    var path := ResolvePath(k, processDir, root, rel);
    if path.Err? {
      return Err(path.error);
    }
    NormalizedIsClean(rel);
    var (rootPath, cleanRel, resolved) := path.value;
    ghost var joined := k.clock;
    var refused := RejectSymlinkComponents(k, rootPath, cleanRel, true, "destination parent does not exist");
    if refused.Some? {
      if Blamed(k.faults, LOOKS, joined, k.clock, refused.value) {
        LookStillBlamed(k.faults, joined, k.clock, old(k.clock), k.clock, refused.value);
      } else if k.Admits() {
        ObjectionResponse(k.nodes, rootPath, Components(cleanRel), true, "destination parent does not exist");
      }
      return Err(refused.value);
    }
    ghost var walked := k.clock;
    r := CheckDestination(k, rootPath, cleanRel, resolved);
    if r.Err? {
      LookStillBlamed(k.faults, walked, k.clock, old(k.clock), k.clock, r.error);
    }
  }

  lemma FreeIsNotRefused(s: Tree, processDir: string, root: string, rel: string)
    requires FileTree.Valid(s) && DestinationFree(s, processDir, root, rel)
    ensures PathRefusal(s, processDir, root, rel).None?
    ensures HostPath(processDir, root, NormalizeRelative(rel).value) != []
    ensures Objection(s, RootPath(processDir, root), Components(NormalizeRelative(rel).value), true,
                      "destination parent does not exist").None?
  {
    NormalizedIsClean(rel);
    var clean := NormalizeRelative(rel).value;
    var rootPath, parts := RootPath(processDir, root), Components(clean);
    FreeIsLinkFree(s, rootPath, parts);
    CleanDoesNotGiveUp(s, rootPath, clean);
    OnlyLeafMissing(s, rootPath, parts, 1);
  }

  lemma {:induction false} OnlyLeafMissing(s: Tree, root: Path, parts: seq<string>, i: nat)
    requires FileTree.Valid(s) && 0 < i <= |parts| && FileTree.CreateErrno(s, root + parts).None?
    ensures FirstMissing(s, root, parts, i) == root + parts
    decreases |parts| - i
  {
    assert parts[..|parts|] == parts;
    if i < |parts| {
      var above := FileTree.Parent(root + parts);
      assert above[..|root| + i] == root + parts[..i];
      if i < |parts| - 1 {
        FileTree.AncestorsAreDirs(s, above, |root| + i);
      } else {
        assert above == root + parts[..i];
      }
      OnlyLeafMissing(s, root, parts, i + 1);
    }
  }

  /** The second half of ResolveDestination: the name must be free, and the parent is looked at once more. */
  method CheckDestination(k: Kernel, rootPath: Path, cleanRel: string, resolved: Path)
      returns (r: Result<(Path, Path), Error>)
    requires k.Valid() && Plain(k.nodes, rootPath)
    requires cleanRel == Render(false, Components(cleanRel)) && AllNames(Components(cleanRel))
    requires resolved == rootPath + Components(cleanRel) && LinkFree(k.nodes, rootPath, Components(cleanRel))
    modifies k`clock
    ensures k.Valid() && old(k.clock) <= k.clock
    ensures r.Ok? ==>
              && Components(cleanRel) != [] && FileTree.CreateErrno(k.nodes, resolved).None?
              && r.value == (resolved, FileTree.Parent(resolved))
    ensures r.Err? && k.Admits() ==>
              || LookBlamed(k.faults, old(k.clock), k.clock, r.error)
              || (!(Components(cleanRel) != [] && FileTree.CreateErrno(k.nodes, resolved).None?)
                  && ResponseFromError(Some(r.error))
                     == if resolved in k.nodes then FailureResponse(EExist, "destination already exists")
                        else if FileTree.Missing(k.nodes, resolved) == ENOENT then
                          FailureResponse(ENoEnt, "destination parent does not exist")
                        else FailureResponse(ENoEnt, "source not found"))
  {
    ghost var parts := Components(cleanRel);
    PlainBelow(k.nodes, rootPath, parts);
    ghost var start := k.clock;
    var taken := k.Lstat(resolved);
    if k.faults(LstatCall, start).Some? {
      LookFailed(k.faults, LstatCall, start, "lstat", resolved);
    }
    if taken.Ok? {
      return Err(NewError(EExist, "destination already exists"));
    }
    if !OsIsNotExist(taken.error) {
      return Err(taken.error);
    }
    MissingParent(k.nodes, rootPath, parts);
    ghost var seen := k.clock;
    var refused := CheckParent(k, rootPath, cleanRel);
    if refused.Some? {
      LookStillBlamed(k.faults, seen, k.clock, old(k.clock), k.clock, refused.value);
      return Err(refused.value);
    }
    r := Ok((resolved, rootPath + DirParts(Components(cleanRel))));
  }

  /** The parent of a missing destination is resolved once more and looked at. */
  method CheckParent(k: Kernel, rootPath: Path, cleanRel: string) returns (err: Option<Error>)
    requires k.Valid() && Plain(k.nodes, rootPath)
    requires cleanRel == Render(false, Components(cleanRel)) && AllNames(Components(cleanRel))
    requires LinkFree(k.nodes, rootPath, Components(cleanRel))
    requires var p := rootPath + DirParts(Components(cleanRel));
             if p in k.nodes then k.nodes[p].Dir? else FileTree.Missing(k.nodes, p) == ENOENT
    modifies k`clock
    ensures k.Valid() && old(k.clock) <= k.clock
    ensures err.None? ==> FileTree.IsDirAt(k.nodes, rootPath + DirParts(Components(cleanRel)))
    ensures err.Some? && k.Admits() ==>
              || LookBlamed(k.faults, old(k.clock), k.clock, err.value)
              || (!FileTree.IsDirAt(k.nodes, rootPath + DirParts(Components(cleanRel)))
                  && ResponseFromError(err) == FailureResponse(ENoEnt, "destination parent does not exist"))
  {
    hide Blamed;
    ghost var parts := Components(cleanRel);
    ParentOfCleanIsClean(cleanRel);
    LinkFreePrefix(k.nodes, rootPath, parts, |DirParts(parts)|);
    assert parts[..|DirParts(parts)|] == DirParts(parts);
    var parentPath := SecureJoin(k, rootPath, DirOf(cleanRel));
    LexicalJoinIsQuiet(k.nodes, rootPath, DirOf(cleanRel));
    if parentPath.Err? {
      return Some(WrapError(EPerm, OUTSIDE, parentPath.error));
    }
    PlainBelow(k.nodes, rootPath, DirParts(parts));
    ghost var joined := k.clock;
    err := LookAtParent(k, parentPath.value);
    if err.Some? {
      LookStillBlamed(k.faults, joined, k.clock, old(k.clock), k.clock, err.value);
    }
  }

  method LookAtParent(k: Kernel, parentPath: Path) returns (err: Option<Error>)
    requires k.Valid() && Plain(k.nodes, parentPath)
    requires if parentPath in k.nodes then k.nodes[parentPath].Dir? else FileTree.Missing(k.nodes, parentPath) == ENOENT
    modifies k`clock
    ensures k.Valid() && old(k.clock) <= k.clock
    ensures err.None? ==> FileTree.IsDirAt(k.nodes, parentPath)
    ensures err.Some? && k.Admits() ==>
              || LookBlamed(k.faults, old(k.clock), k.clock, err.value)
              || (!FileTree.IsDirAt(k.nodes, parentPath)
                  && ResponseFromError(err) == FailureResponse(ENoEnt, "destination parent does not exist"))
  {
    hide Blamed;
    hide Protocol.CodeFromError;
    hide Protocol.MessageFromError;
    ghost var start := k.clock;
    var parentInfo := k.Lstat(parentPath);
    if k.faults(LstatCall, start).Some? {
      LookFailed(k.faults, LstatCall, start, "lstat", parentPath);
    }
    if parentInfo.Err? {
      if OsIsNotExist(parentInfo.error) {
        return Some(WrapError(ENoEnt, "destination parent does not exist", parentInfo.error));
      }
      return Some(parentInfo.error);
    }
    if parentInfo.value.mode.kind == FileTree.SymbolicLink {
      return Some(NO_SYMLINKS);
    }
    if parentInfo.value.mode.kind != FileTree.Directory {
      return Some(NewError(EInval, "destination parent must be a directory"));
    }
    err := None;
  }

  /** The directory of a name whose lookup fails with ENOENT is a directory, or missing for the same reason. */
  lemma MissingParent(s: Tree, root: Path, parts: seq<string>)
    requires root + parts !in s && FileTree.Missing(s, root + parts) == ENOENT
    ensures var p := root + DirParts(parts);
            && (if p in s then s[p].Dir? else FileTree.Missing(s, p) == ENOENT)
            && (FileTree.IsDirAt(s, p) <==> parts != [] && FileTree.CreateErrno(s, root + parts).None?)
            && (parts != [] ==> FileTree.Parent(root + parts) == p)
  {
    if parts == [] {
      assert root + DirParts(parts) == root + parts;
    } else {
      assert root + parts != [] && FileTree.Parent(root + parts) == root + DirParts(parts);
    }
  }

  /** Every node on a link-free way below a plain root is reached without following a link. */
  lemma PlainBelow(s: Tree, root: Path, parts: seq<string>)
    requires FileTree.Valid(s) && Plain(s, root) && LinkFree(s, root, parts)
    ensures Plain(s, root + parts)
  {
    LinkFreeAbove(s, root, parts, "");
    assert parts[..|parts|] == parts;
    if parts == [] { assert root + parts == root; }
  }

  lemma LexicalJoinIsQuiet(s: Tree, rootPath: Path, rel: string)
    requires Lexical(s, rootPath, rel)
    ensures Resolved(s, rootPath, [], Split(rel), 0).Some?
  {
    CleanDoesNotGiveUp(s, rootPath, rel);
  }
}
