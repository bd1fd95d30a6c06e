/**
 * Does the walk end? With the destination apart from the source, after at most one turn for each source entry. With the
 * destination strictly inside the source, which the repository does not exclude, only if something that cannot be
 * cloned comes before the destination; otherwise never, because the walk follows its own output.
 */
module WalkTermination {
  import opened Wrappers
  import opened FileTree
  import opened WalkOrder
  import opened Kernels
  import opened TreeImages
  import opened TreeWalks

  /** The walk just after the destination's root was created and the source's root was read. */
  ghost function Start(s0: Tree, src: Path, dst: Path): WalkState {
    var nodes := s0[dst := TEMPORARY];
    WalkState(nodes, ChildPaths(nodes, src))
  }

  /** `n` turns in a row; None if the walk fails or has no turn left to make. */
  ghost function Turns(s0: Tree, src: Path, dst: Path, n: nat): Option<WalkState> {
    if n == 0 then Some(Start(s0, src, dst))
    else
      var before := Turns(s0, src, dst, n - 1);
      if before.None? || before.value.stack == [] then None
      else Move(src, dst, before.value)
  }

  /** What the walk needs in order to start. */
  ghost predicate CanStart(s0: Tree, src: Path, dst: Path) {
    FileTree.Valid(s0) && IsDirAt(s0, src) && CreateErrno(s0, dst).None?
  }

  // ---------------------------------------------------------------------------------------------
  // Coming to an end
  // ---------------------------------------------------------------------------------------------

  lemma OneTurn(base: Tree, src: Path, dst: Path, st: WalkState, done: seq<Path>, dirs: seq<PendingMode>)
      returns (done': seq<Path>, dirs': seq<PendingMode>)
    requires FileTree.Valid(base) && src in base && IsBase(base, src, dst) && FileTree.Valid(st.nodes)
    requires Walking(base, st.nodes, src, dst, done, st.stack, dirs) && st.stack != []
    ensures src <= st.stack[0] && st.stack[0] in base
    ensures Move(src, dst, st).Some? <==> Clonable(base[st.stack[0]])
    ensures Move(src, dst, st).Some? ==>
              && FileTree.Valid(Move(src, dst, st).value.nodes)
              && Walking(base, Move(src, dst, st).value.nodes, src, dst, done', Move(src, dst, st).value.stack, dirs')
              && |done'| == |done| + 1
  {
    var path, rest := st.stack[0], st.stack[1..];
    assert st.stack == [path] + rest;
    TurnIsReady(base, st.nodes, src, dst, done, path, rest, dirs);
    done', dirs' := done + [path], dirs;
    if Clonable(base[path]) {
      var more := if base[path].Dir? then
                    [PendingMode(Relocate(src, dst, path), ExactDirectoryMode(Info(base[path]).mode))]
                  else [];
      TurnGrows(base, st.nodes, src, dst, done, path, rest, dirs, more);
      MoveIs(src, dst, st.nodes, path, rest);
      AddKeepsValid(st.nodes, Relocate(src, dst, path), Fresh(base[path]));
      dirs' := dirs + more;
    }
  }

  /** As long as there is a turn to make, it makes one more entry of the base's walk. */
  lemma {:induction false} TurnsFollowTheWalk(s0: Tree, src: Path, dst: Path, n: nat)
      returns (done: seq<Path>, dirs: seq<PendingMode>)
    requires CanStart(s0, src, dst) && ComesToAnEnd(s0, src, dst) && Turns(s0, src, dst, n).Some?
    ensures src in BaseOf(s0, src, dst)
    ensures var st := Turns(s0, src, dst, n).value;
            && FileTree.Valid(st.nodes) && Walking(BaseOf(s0, src, dst), st.nodes, src, dst, done, st.stack, dirs)
    ensures |done| == n + 1 && n < |Preorder(BaseOf(s0, src, dst), src)|
  {
    var base := BaseOf(s0, src, dst);
    BaseIsBase(s0, src, dst);
    if n == 0 {
      var s := s0[dst := TEMPORARY];
      done, dirs := [src], [PendingMode(dst, ExactDirectoryMode(Info(s0[src]).mode))];
      AddKeepsValid(s0, dst, TEMPORARY);
      StartOfWalk(base, s, src, dst, dirs);
    } else {
      done, dirs := TurnsFollowTheWalk(s0, src, dst, n - 1);
      done, dirs := OneTurn(base, src, dst, Turns(s0, src, dst, n - 1).value, done, dirs);
    }
    assert |done + Pending(base, Turns(s0, src, dst, n).value.stack)| == |Preorder(base, src)|;
  }

  /** There are no more turns than entries. */
  lemma WalkIsOver(s0: Tree, src: Path, dst: Path)
    requires CanStart(s0, src, dst) && ComesToAnEnd(s0, src, dst) && src in BaseOf(s0, src, dst)
    ensures Turns(s0, src, dst, |Preorder(BaseOf(s0, src, dst), src)|).None?
  {
    var n := |Preorder(BaseOf(s0, src, dst), src)|;
    if Turns(s0, src, dst, n).Some? {
      var done, dirs := TurnsFollowTheWalk(s0, src, dst, n);
    }
  }

  lemma {:induction false} NothingStops(s0: Tree, src: Path, dst: Path, n: nat)
    requires CanStart(s0, src, dst) && AllClonable(s0, src) && !(src <= dst) && n < |Preorder(s0, src)|
    ensures Turns(s0, src, dst, n).Some?
  {
    if n > 0 {
      NothingStops(s0, src, dst, n - 1);
      var done, dirs := TurnsFollowTheWalk(s0, src, dst, n - 1);
      var st := Turns(s0, src, dst, n - 1).value;
      assert |done + Pending(s0, st.stack)| == |Preorder(s0, src)|;
      BaseIsBase(s0, src, dst);
      done, dirs := OneTurn(s0, src, dst, st, done, dirs);
    }
  }

  /**
   * With nothing in the way, the walk is over after one turn for each entry below the source's root, and not before.
   */
  lemma WalkEnds(s0: Tree, src: Path, dst: Path, n: nat)
    requires CanStart(s0, src, dst) && AllClonable(s0, src) && !(src <= dst)
    requires n < |Under(s0, src)|
    ensures Turns(s0, src, dst, n).Some?
    ensures Turns(s0, src, dst, n).value.stack == [] <==> n == |Under(s0, src)| - 1
  {
    PreorderLength(s0, src);
    NothingStops(s0, src, dst, n);
    var done, dirs := TurnsFollowTheWalk(s0, src, dst, n);
    var st := Turns(s0, src, dst, n).value;
    if st.stack != [] {
      PendingStep(s0, st.stack[0], st.stack[1..]);
      assert st.stack == [st.stack[0]] + st.stack[1..];
    }
  }

  lemma PreorderLength(s: Tree, p: Path)
    requires FileTree.Valid(s) && p in s
    ensures |Preorder(s, p)| == |Under(s, p)|
  {
    PreorderIsTheSortedSubtree(s, p);
    DistinctLength(Preorder(s, p), Under(s, p));
  }

  lemma {:induction false} DistinctLength(ps: seq<Path>, set': set<Path>)
    requires StrictlySorted(ps) && forall q :: q in ps <==> q in set'
    ensures |ps| == |set'|
    decreases |ps|
  {
    EmptyOrMember(ps);
    if ps != [] {
      forall q ensures q in ps[1..] <==> q in set' - {ps[0]} {
        if q in ps[1..] {
          var i :| 0 <= i < |ps[1..]| && ps[1..][i] == q;
          assert ps[i + 1] == q;
          PathLessIrreflexive(q);
        }
      }
      assert ps[0] in ps;
      DistinctLength(ps[1..], set' - {ps[0]});
    } else {
      assert set' == {};
    }
  }

  // ---------------------------------------------------------------------------------------------
  // Inside
  // ---------------------------------------------------------------------------------------------

  ghost function Repeat(r: Path, k: nat): Path {
    if k == 0 then [] else r + Repeat(r, k - 1)
  }

  lemma {:induction false} RepeatCommutes(r: Path, k: nat)
    ensures r + Repeat(r, k) == Repeat(r, k) + r
  {
    if k == 0 {
      assert r + [] == [] + r;
    } else {
      RepeatCommutes(r, k - 1);
      assert r + (Repeat(r, k - 1) + r) == (r + Repeat(r, k - 1)) + r;
    }
  }

  /** The destination, its own copy, the copy of that, and so on. */
  ghost function Chain(src: Path, dst: Path, k: nat): Path
    requires src <= dst
  {
    src + Repeat(dst[|src|..], k)
  }

  lemma ChainIsInside(src: Path, dst: Path, k: nat)
    requires src <= dst && k > 0
    ensures dst <= Chain(src, dst, k)
  {
    var r := dst[|src|..];
    assert src + (r + Repeat(r, k - 1)) == (src + r) + Repeat(r, k - 1) && src + r == dst;
  }

  /** `a` comes first, and so does everything below it before everything below `b`. */
  predicate Before(a: Path, b: Path) {
    PathLess(a, b) && !(a <= b)
  }

  lemma {:induction false} BeforeBelow(a: Path, b: Path, a': Path, b': Path)
    requires Before(a, b) && a <= a' && b <= b'
    ensures Before(a', b')
  {
    assert a != [] && b != [];
    NameLessTotal(a[0], b[0]);
    if a[0] == b[0] {
      assert !(a[1..] <= b[1..]) by {
        assert a == [a[0]] + a[1..] && b == [b[0]] + b[1..];
      }
      BeforeBelow(a[1..], b[1..], a'[1..], b'[1..]);
    }
  }

  lemma SiblingsBefore(a: Path, b: Path)
    requires a != [] && b != [] && Parent(a) == Parent(b) && NameLess(Leaf(a), Leaf(b))
    ensures Before(a, b)
  {
    assert a == Parent(a) + [Leaf(a)] && b == Parent(b) + [Leaf(b)];
    BranchesAreLess(Parent(a), Leaf(a), Leaf(b), a, b);
    if a <= b {
      assert |a| == |b|;
      NameLessTotal(Leaf(a), Leaf(a));
    }
  }

  lemma ChainGrows(src: Path, dst: Path, k: nat)
    requires src < dst
    ensures Chain(src, dst, k) < Chain(src, dst, k + 1)
    ensures Relocate(src, dst, Chain(src, dst, k)) == Chain(src, dst, k + 1)
  {
    var r := dst[|src|..];
    assert dst == src + r;
    RepeatCommutes(r, k);
    assert Chain(src, dst, k + 1) == src + (Repeat(r, k) + r) == Chain(src, dst, k) + r;
    assert Chain(src, dst, k)[|src|..] == Repeat(r, k);
    assert (src + r) + Repeat(r, k) == src + (r + Repeat(r, k));
  }

  /**
   * The walk's state when it is chasing its own output. `seen` is what was visited, the root included: exactly its
   * copies exist. What is on the stack was found in a directory seen, and was not seen itself. And one entry of the
   * stack leads to a link of the chain that already exists; until it is reached, everything can be cloned.
   */
  ghost predicate Chasing(src: Path, dst: Path, st: WalkState, seen: set<Path>, k: nat, lead: Path)
    requires src < dst
  {
    && CopiesOfSeen(src, dst, st.nodes, seen)
    && StackIsNew(src, st.nodes, st.stack, seen)
    && k > 0 && lead in st.stack && lead <= Chain(src, dst, k) && Chain(src, dst, k) in st.nodes
  }

  ghost predicate CopiesOfSeen(src: Path, dst: Path, s: Tree, seen: set<Path>)
    requires src < dst
  {
    && FileTree.Valid(s) && OpenWay(s, src, dst)
    && src in seen && (forall p :: p in seen ==> src <= p && p in s)
    && ParentsSeen(src, seen)
    && (forall q {:trigger q in s} :: dst <= q ==> (q in s <==> Origin(src, dst, q) in seen))
    && (forall p :: p in seen && s[p].Dir? ==> IsDirAt(s, Relocate(src, dst, p)))
  }

  /** Everything that comes before the destination, or is below it, can be cloned. */
  ghost predicate OpenWay(s: Tree, src: Path, dst: Path) {
    forall p :: p in s && src <= p && (dst <= p || PathLess(p, dst)) ==> Clonable(s[p])
  }

  ghost predicate ParentsSeen(src: Path, seen: set<Path>) {
    forall p {:trigger Parent(p), p in seen} :: p in seen && src < p ==> Parent(p) in seen
  }

  ghost predicate StackIsNew(src: Path, s: Tree, stack: seq<Path>, seen: set<Path>) {
    && (forall e :: e in stack ==> e in s && src < e && Parent(e) in seen && e !in seen)
    && (forall i, j | 0 <= i < j < |stack| :: Before(stack[i], stack[j]))
  }

  lemma ChaseStarts(s0: Tree, src: Path, dst: Path) returns (lead: Path)
    requires CanStart(s0, src, dst) && src < dst && !StopsBefore(s0, src, dst)
    ensures Chasing(src, dst, Start(s0, src, dst), {src}, 1, lead)
  {
    var s := s0[dst := TEMPORARY];
    AddKeepsValid(s0, dst, TEMPORARY);
    assert Relocate(src, dst, src) == dst;
    RelocateOrigin(src, dst, src);
    forall q | dst <= q ensures q in s <==> Origin(src, dst, q) in {src} {
      NothingBelowAbsent(s0, dst, q);
      OriginRelocate(src, dst, q);
    }
    forall p | p in s && src <= p && (dst <= p || PathLess(p, dst)) ensures Clonable(s[p]) {
      if dst <= p {
        NothingBelowAbsent(s0, dst, p);
      }
    }
    assert CopiesOfSeen(src, dst, s, {src});
    assert Repeat(dst[|src|..], 1) == dst[|src|..] + Repeat(dst[|src|..], 0) == dst[|src|..];
    assert Chain(src, dst, 1) == dst;
    ChildTowards(s, src, dst);
    lead := dst[..|src| + 1];
    ContentsAreNew(s, src, {}, []);
    assert ChildPaths(s, src) + [] == ChildPaths(s, src);
  }

  /** The contents of a directory just seen, put on the stack. */
  lemma ContentsAreNew(s: Tree, p: Path, seen: set<Path>, rest: seq<Path>)
    requires p !in seen && ParentsSeen(p, seen)
    requires forall e :: e in rest ==> Before(p, e)
    requires forall i, j | 0 <= i < j < |rest| :: Before(rest[i], rest[j])
    ensures forall e :: e in ChildPaths(s, p) ==> e in s && p < e && Parent(e) == p && e !in seen && e != p
    ensures var all := ChildPaths(s, p) + rest; forall i, j | 0 <= i < j < |all| :: Before(all[i], all[j])
  {
    var kids := ChildPaths(s, p);
    forall e | e in kids ensures e in s && p < e && Parent(e) == p && e !in seen && e != p {
      assert Parent(e) == p;
    }
    forall i, j | 0 <= i < j < |kids + rest| ensures Before((kids + rest)[i], (kids + rest)[j]) {
      if j < |kids| {
        assert kids[i] in kids && kids[j] in kids;
        SiblingsBefore(kids[i], kids[j]);
      } else if i < |kids| {
        assert kids[i] in kids && rest[j - |kids|] in rest;
        BeforeBelow(p, rest[j - |kids|], kids[i], rest[j - |kids|]);
      }
    }
  }

  /** Nothing stops the chase, and it does not lose its lead. */
  lemma ChaseMoves(src: Path, dst: Path, st: WalkState, seen: set<Path>, k: nat, lead: Path)
      returns (k': nat, lead': Path)
    requires src < dst && Chasing(src, dst, st, seen, k, lead)
    ensures st.stack != [] && Move(src, dst, st).Some?
    ensures Chasing(src, dst, Move(src, dst, st).value, seen + {st.stack[0]}, k', lead')
  {
    var p, rest := st.stack[0], st.stack[1..];
    assert st.stack == [p] + rest && p in st.stack;
    TopIsBeforeLead(src, dst, st, seen, k, lead);
    CopyIsPossible(src, dst, st.nodes, seen, p);
    var s' := st.nodes[Relocate(src, dst, p) := Fresh(st.nodes[p])];
    MoveIs(src, dst, st.nodes, p, rest);
    CopyIsSeen(src, dst, st.nodes, seen, p);
    NextStackIsNew(src, dst, st.nodes, s', seen, p, rest);
    k', lead' := NextLead(src, dst, st, k, lead);
  }

  /** Until the chain is reached, the walk stays before the destination. */
  lemma TopIsBeforeLead(src: Path, dst: Path, st: WalkState, seen: set<Path>, k: nat, lead: Path)
    requires src < dst && Chasing(src, dst, st, seen, k, lead)
    ensures st.stack != [] && (dst <= st.stack[0] || PathLess(st.stack[0], dst))
  {
    var p, end := st.stack[0], Chain(src, dst, k);
    ChainIsInside(src, dst, k);
    if p != lead {
      var i :| 0 <= i < |st.stack| && st.stack[i] == lead;
      BeforeBelow(p, lead, p, end);
    } else if lead != end {
      PrefixIsLess(lead, end);
    }
    if p != end && !(dst <= p) {
      LessThanBelow(p, dst, end);
    }
  }

  lemma CopyIsSeen(src: Path, dst: Path, s: Tree, seen: set<Path>, p: Path)
    requires src < dst && CopiesOfSeen(src, dst, s, seen)
    requires src < p && p in s && Clonable(s[p]) && p !in seen && Parent(p) in seen
    requires CreateErrno(s, Relocate(src, dst, p)).None?
    ensures OpenWay(s[Relocate(src, dst, p) := Fresh(s[p])], src, dst)
    ensures CopiesOfSeen(src, dst, s[Relocate(src, dst, p) := Fresh(s[p])], seen + {p})
  {
    var target := Relocate(src, dst, p);
    var s' := s[target := Fresh(s[p])];
    AddKeepsValid(s, target, Fresh(s[p]));
    RelocateOrigin(src, dst, p);
    forall q {:trigger q in s'} | dst <= q ensures q in s' <==> Origin(src, dst, q) in seen + {p} {
      OriginRelocate(src, dst, q);
    }
  }

  lemma NextStackIsNew(src: Path, dst: Path, s: Tree, s': Tree, seen: set<Path>, p: Path, rest: seq<Path>)
    requires src < dst && src < p && ParentsSeen(src, seen) && StackIsNew(src, s, [p] + rest, seen)
    requires forall q :: q in s ==> q in s'
    ensures StackIsNew(src, s', ChildPaths(s', p) + rest, seen + {p})
  {
    var all := [p] + rest;
    assert all[0] == p && p in all;
    forall e | e in rest ensures e in all && Before(p, e) && e != p {
      var i :| 0 <= i < |rest| && rest[i] == e;
      assert all[i + 1] == e;
    }
    forall i, j | 0 <= i < j < |rest| ensures Before(rest[i], rest[j]) {
      assert Before(all[i + 1], all[j + 1]);
    }
    ContentsAreNew(s', p, seen, rest);
  }

  lemma CopyIsPossible(src: Path, dst: Path, s: Tree, seen: set<Path>, p: Path)
    requires src < dst && CopiesOfSeen(src, dst, s, seen)
    requires p in s && src < p && Parent(p) in seen && p !in seen && (dst <= p || PathLess(p, dst))
    ensures Clonable(s[p]) && CreateErrno(s, Relocate(src, dst, p)).None?
  {
    RelocateOrigin(src, dst, p);
    assert IsDirAt(s, Parent(p));
    assert src <= Parent(p);
    assert Parent(Relocate(src, dst, p)) == Relocate(src, dst, Parent(p));
  }

  /** After the turn of `p`, some entry on the stack again leads to a link that exists. */
  lemma NextLead(src: Path, dst: Path, st: WalkState, k: nat, lead: Path) returns (k': nat, lead': Path)
    requires src < dst && FileTree.Valid(st.nodes) && st.stack != []
    requires lead in st.stack && lead <= Chain(src, dst, k) && Chain(src, dst, k) in st.nodes
    requires src <= st.stack[0] && st.stack[0] in st.nodes && Clonable(st.nodes[st.stack[0]])
    requires CreateErrno(st.nodes, Relocate(src, dst, st.stack[0])).None?
    ensures var p := st.stack[0];
            var s' := st.nodes[Relocate(src, dst, p) := Fresh(st.nodes[p])];
            && k' >= k && lead' in ChildPaths(s', p) + st.stack[1..]
            && lead' <= Chain(src, dst, k') && Chain(src, dst, k') in s'
  {
    var p := st.stack[0];
    var s' := st.nodes[Relocate(src, dst, p) := Fresh(st.nodes[p])];
    AddKeepsValid(st.nodes, Relocate(src, dst, p), Fresh(st.nodes[p]));
    k', lead' := k, lead;
    if lead == p {
      if p == Chain(src, dst, k) {
        ChainGrows(src, dst, k);
        k' := k + 1;
      }
      assert p < Chain(src, dst, k') && Chain(src, dst, k') in s';
      ChildTowards(s', p, Chain(src, dst, k'));
      lead' := Chain(src, dst, k')[..|p| + 1];
    } else {
      var i :| 0 <= i < |st.stack| && st.stack[i] == lead;
      assert st.stack[1..][i - 1] == lead;
    }
  }

  lemma {:induction false} ChaseGoesOn(s0: Tree, src: Path, dst: Path, n: nat)
      returns (seen: set<Path>, k: nat, lead: Path)
    requires CanStart(s0, src, dst) && src < dst && !StopsBefore(s0, src, dst)
    ensures Turns(s0, src, dst, n).Some?
    ensures Chasing(src, dst, Turns(s0, src, dst, n).value, seen, k, lead)
  {
    if n == 0 {
      seen, k := {src}, 1;
      lead := ChaseStarts(s0, src, dst);
    } else {
      seen, k, lead := ChaseGoesOn(s0, src, dst, n - 1);
      var st := Turns(s0, src, dst, n - 1).value;
      k, lead := ChaseMoves(src, dst, st, seen, k, lead);
      seen := seen + {st.stack[0]};
    }
  }

  /**
   * A destination strictly inside the source, and nothing before it that cannot be cloned: however many turns the walk
   * makes, none of them fails and an entry is left to visit.
   */
  lemma WalkNeverEnds(s0: Tree, src: Path, dst: Path, n: nat)
    requires CanStart(s0, src, dst) && src < dst && !StopsBefore(s0, src, dst)
    ensures Turns(s0, src, dst, n).Some? && Turns(s0, src, dst, n).value.stack != []
  {
    var seen, k, lead := ChaseGoesOn(s0, src, dst, n);
  }

  /**
   * When it can start and no call fails, the walk ends, in success or not, exactly if the destination is not inside the
   * source or something that cannot be cloned comes before it.
   */
  lemma WalkEndsIff(s0: Tree, src: Path, dst: Path)
    requires CanStart(s0, src, dst)
    ensures (exists n: nat :: Turns(s0, src, dst, n).None?) <==> ComesToAnEnd(s0, src, dst)
  {
    if ComesToAnEnd(s0, src, dst) {
      BaseIsBase(s0, src, dst);
      WalkIsOver(s0, src, dst);
    } else {
      forall n: nat ensures Turns(s0, src, dst, n).Some? {
        WalkNeverEnds(s0, src, dst, n);
      }
    }
  }
}
