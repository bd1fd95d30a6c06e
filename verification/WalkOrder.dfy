/**
 * The entries filepath.WalkDir visits: each directory before its contents, the contents of a directory in lexical
 * order. `Preorder` is that list by recursion; the lemmas say independently which list it is.
 */
module WalkOrder {
  import opened FileTree

  /** A node and everything below it. */
  ghost function Under(s: Tree, p: Path): set<Path> {
    set q | q in s && p <= q
  }

  /** `ps` lists the contents of a directory in lexical order; nothing else has contents. */
  ghost predicate IsContents(s: Tree, p: Path, ps: seq<Path>) {
    && (forall q {:trigger q in ps} :: q in ps <==> IsDirAt(s, p) && q in s && |q| == |p| + 1 && p <= q)
    && IsChildList(p, ps)
  }

  ghost predicate IsChildList(p: Path, ps: seq<Path>) {
    && (forall i | 0 <= i < |ps| :: |ps[i]| == |p| + 1 && p <= ps[i])
    && (forall i, j | 0 <= i < j < |ps| :: NameLess(Leaf(ps[i]), Leaf(ps[j])))
  }

  /** Names in a directory as paths. */
  function PathsOf(p: Path, names: seq<string>): seq<Path> {
    seq(|names|, i requires 0 <= i < |names| => p + [names[i]])
  }

  lemma SortedNamesAreContents(s: Tree, p: Path, names: seq<string>)
    requires Ascending(names) && IsDirAt(s, p)
    requires forall x :: x in names <==> x in ChildNames(s, p)
    ensures IsContents(s, p, PathsOf(p, names))
  {
    var ps := PathsOf(p, names);
    forall i | 0 <= i < |ps| ensures |ps[i]| == |p| + 1 && p <= ps[i] && Leaf(ps[i]) == names[i] && ps[i] in s {
      assert ps[i] == p + [names[i]];
      assert names[i] in names;
      ChildNamesMember(s, p, names[i]);
    }
    forall q | q in s && |q| == |p| + 1 && p <= q ensures q in ps {
      assert q == p + [Leaf(q)];
      ChildNamesMember(s, p, Leaf(q));
      var i :| 0 <= i < |names| && names[i] == Leaf(q);
      assert ps[i] == q;
    }
  }

  lemma ContentsExist(s: Tree, p: Path)
    ensures exists ps :: IsContents(s, p, ps)
  {
    if IsDirAt(s, p) {
      SortedNamesAreContents(s, p, SortNames(ChildNames(s, p)));
    } else {
      assert IsContents(s, p, []);
    }
  }

  lemma ContentsUnique(s: Tree, p: Path, a: seq<Path>, b: seq<Path>)
    requires IsContents(s, p, a) && IsContents(s, p, b)
    ensures a == b
  {
    var an := seq(|a|, i requires 0 <= i < |a| => Leaf(a[i]));
    var bn := seq(|b|, i requires 0 <= i < |b| => Leaf(b[i]));
    forall x ensures x in an <==> x in bn {
      if x in an {
        var i :| 0 <= i < |an| && an[i] == x;
        assert a[i] in a && a[i] in b;
        var j :| 0 <= j < |b| && b[j] == a[i];
        assert bn[j] == x;
      }
      if x in bn {
        var i :| 0 <= i < |bn| && bn[i] == x;
        assert b[i] in b && b[i] in a;
        var j :| 0 <= j < |a| && a[j] == b[i];
        assert an[j] == x;
      }
    }
    AscendingUnique(an, bn);
    forall i | 0 <= i < |a| ensures a[i] == b[i] {
      assert a[i] == p + [an[i]] && b[i] == p + [bn[i]];
    }
  }

  /** The contents of a directory, in lexical order. */
  ghost function ChildPaths(s: Tree, p: Path): (ps: seq<Path>)
    ensures IsContents(s, p, ps)
  {
    ContentsExist(s, p);
    var ps :| IsContents(s, p, ps);
    ps
  }

  lemma EmptyOrMember<T>(a: seq<T>)
    ensures a == [] || exists x :: x in a
  {
    assert a != [] ==> a[0] in a;
  }

  lemma OnlyDirectoriesHaveContents(s: Tree, p: Path)
    requires !IsDirAt(s, p)
    ensures ChildPaths(s, p) == []
  {
    EmptyOrMember(ChildPaths(s, p));
  }

  lemma UnderChild(s: Tree, p: Path, c: Path)
    requires p in s && c in s && p < c
    ensures |Under(s, c)| < |Under(s, p)|
  {
    assert p in Under(s, p) && p !in Under(s, c);
    SmallerSet(Under(s, c), Under(s, p));
  }

  lemma {:induction false} SmallerSet<T>(a: set<T>, b: set<T>)
    requires a < b
    ensures |a| < |b|
  {
    if a != {} {
      var x :| x in a;
      SmallerSet(a - {x}, b - {x});
    }
  }

  /** `p`, then the preorders of its contents. */
  ghost function Preorder(s: Tree, p: Path): seq<Path>
    requires p in s
    decreases |Under(s, p)|, 1, 0
  {
    [p] + Forest(s, p, ChildPaths(s, p))
  }

  ghost function Forest(s: Tree, p: Path, ps: seq<Path>): seq<Path>
    requires p in s
    requires forall q :: q in ps ==> q in s && p < q
    decreases |Under(s, p)|, 0, |ps|
  {
    if ps == [] then []
    else
      UnderChild(s, p, ps[0]);
      Preorder(s, ps[0]) + Forest(s, p, ps[1..])
  }

  /** What is left to visit when `stack` holds the entries whose turn is to come. */
  ghost function Pending(s: Tree, stack: seq<Path>): seq<Path>
    requires forall q :: q in stack ==> q in s
  {
    if stack == [] then [] else Preorder(s, stack[0]) + Pending(s, stack[1..])
  }

  lemma {:induction false} PendingIsForest(s: Tree, p: Path, ps: seq<Path>)
    requires p in s
    requires forall q :: q in ps ==> q in s && p < q
    ensures Pending(s, ps) == Forest(s, p, ps)
    decreases |ps|
  {
    if ps != [] {
      PendingIsForest(s, p, ps[1..]);
    }
  }

  lemma {:induction false} PendingConcat(s: Tree, a: seq<Path>, b: seq<Path>)
    requires forall q :: q in a || q in b ==> q in s
    ensures forall q :: q in a + b ==> q in s
    ensures Pending(s, a + b) == Pending(s, a) + Pending(s, b)
    decreases |a|
  {
    if a == [] {
      assert a + b == b;
    } else {
      assert (a + b)[1..] == a[1..] + b;
      PendingConcat(s, a[1..], b);
    }
  }

  lemma PreorderIsHeadThenPending(s: Tree, p: Path)
    requires p in s
    ensures Preorder(s, p) == [p] + Pending(s, ChildPaths(s, p))
  {
    PendingIsForest(s, p, ChildPaths(s, p));
  }

  lemma AppendAssoc<T>(a: seq<T>, b: seq<T>, c: seq<T>)
    ensures (a + b) + c == a + (b + c)
  {
  }

  /** One turn: the head leaves, and its contents, if it is a directory, take its place. */
  lemma {:induction false} PendingStep(s: Tree, p: Path, rest: seq<Path>)
    requires p in s && forall q :: q in rest ==> q in s
    ensures forall q :: q in ChildPaths(s, p) + rest ==> q in s
    ensures Pending(s, [p] + rest) == [p] + Pending(s, ChildPaths(s, p) + rest)
  {
    var kids := ChildPaths(s, p);
    PreorderIsHeadThenPending(s, p);
    PendingConcat(s, kids, rest);
    AppendAssoc([p], Pending(s, kids), Pending(s, rest));
    assert ([p] + rest)[1..] == rest;
  }

  // ---------------------------------------------------------------------------------------------
  // Which list Preorder is
  // ---------------------------------------------------------------------------------------------

  /** Lexical order of paths, component by component; a directory comes before what it holds. */
  predicate PathLess(a: Path, b: Path) {
    b != [] && (a == [] || NameLess(a[0], b[0]) || (a[0] == b[0] && PathLess(a[1..], b[1..])))
  }

  predicate StrictlySorted(ps: seq<Path>) {
    forall i, j | 0 <= i < j < |ps| :: PathLess(ps[i], ps[j])
  }

  /** The order of the walk: the first component in which two paths differ decides, or else an ancestor is less. */
  lemma {:induction false} PathLessMeans(a: Path, b: Path) returns (n: nat)
    ensures n <= |a| && n <= |b| && a[..n] == b[..n] && (n < |a| && n < |b| ==> a[n] != b[n])
    ensures PathLess(a, b) <==> n < |b| && (n == |a| || NameLess(a[n], b[n]))
  {
    n := 0;
    if a != [] && b != [] {
      NameLessTotal(a[0], b[0]);
      if a[0] == b[0] {
        n := PathLessMeans(a[1..], b[1..]);
        assert a == [a[0]] + a[1..] && b == [b[0]] + b[1..];
        n := n + 1;
      }
    }
  }

  lemma {:induction false} PathLessIrreflexive(a: Path)
    ensures !PathLess(a, a)
  {
    if a != [] {
      NameLessTotal(a[0], a[0]);
      PathLessIrreflexive(a[1..]);
    }
  }

  lemma {:induction false} PathLessAsymmetric(a: Path, b: Path)
    ensures !(PathLess(a, b) && PathLess(b, a))
  {
    if a != [] && b != [] {
      NameLessTotal(a[0], b[0]);
      PathLessAsymmetric(a[1..], b[1..]);
    }
  }

  lemma {:induction false} PathLessTransitive(a: Path, b: Path, c: Path)
    requires PathLess(a, b) && PathLess(b, c)
    ensures PathLess(a, c)
  {
    if a != [] {
      if a[0] == b[0] == c[0] {
        NameLessTotal(a[0], a[0]);
        PathLessTransitive(a[1..], b[1..], c[1..]);
      } else if a[0] != b[0] && b[0] != c[0] {
        NameLessTransitive(a[0], b[0], c[0]);
      }
    }
  }

  lemma {:induction false} PrefixIsLess(a: Path, b: Path)
    requires a < b
    ensures PathLess(a, b) && !PathLess(b, a)
  {
    if a != [] {
      NameLessTotal(a[0], a[0]);
      PrefixIsLess(a[1..], b[1..]);
    }
  }

  lemma {:induction false} BranchesAreLess(p: Path, m: string, n: string, a: Path, b: Path)
    requires NameLess(m, n) && p + [m] <= a && p + [n] <= b
    ensures PathLess(a, b)
    decreases |p|
  {
    if p != [] {
      assert a[0] == p[0] && b[0] == p[0];
      assert p[1..] + [m] == (p + [m])[1..] <= a[1..];
      assert p[1..] + [n] == (p + [n])[1..] <= b[1..];
      BranchesAreLess(p[1..], m, n, a[1..], b[1..]);
    }
  }

  lemma ChildTowards(s: Tree, p: Path, q: Path)
    requires Valid(s) && p in s && q in s && p < q
    ensures s[p].Dir?
    ensures q[..|p| + 1] in ChildPaths(s, p) && q[..|p| + 1] <= q && q in Under(s, q[..|p| + 1])
  {
    AncestorsAreDirs(s, q, |p|);
    assert q[..|p|] == p;
    if |p| + 1 < |q| {
      AncestorsAreDirs(s, q, |p| + 1);
    } else {
      assert q[..|p| + 1] == q;
    }
  }

  lemma {:induction false} PreorderMembers(s: Tree, p: Path)
    requires Valid(s) && p in s
    ensures forall q :: q in Preorder(s, p) <==> q in Under(s, p)
    decreases |Under(s, p)|, 1, 0
  {
    var kids := ChildPaths(s, p);
    ForestMembers(s, p, kids);
    assert Preorder(s, p) == [p] + Forest(s, p, kids);
    forall q
      ensures q in Preorder(s, p) <==> q in Under(s, p)
    {
      if q in Under(s, p) && q != p {
        ChildTowards(s, p, q);
        assert InSomeSubtree(s, kids, q);
      }
    }
  }

  ghost predicate InSomeSubtree(s: Tree, ps: seq<Path>, q: Path) {
    exists c :: c in ps && q in Under(s, c)
  }

  lemma {:induction false} ForestMembers(s: Tree, p: Path, ps: seq<Path>)
    requires Valid(s) && p in s
    requires forall q :: q in ps ==> q in s && p < q
    ensures forall q :: q in Forest(s, p, ps) <==> InSomeSubtree(s, ps, q)
    decreases |Under(s, p)|, 0, |ps|
  {
    if ps != [] {
      UnderChild(s, p, ps[0]);
      PreorderMembers(s, ps[0]);
      ForestMembers(s, p, ps[1..]);
      assert forall c :: c in ps <==> c == ps[0] || c in ps[1..];
      forall q
        ensures q in Forest(s, p, ps) <==> InSomeSubtree(s, ps, q)
      {
        assert InSomeSubtree(s, ps, q) <==> q in Under(s, ps[0]) || InSomeSubtree(s, ps[1..], q);
      }
    }
  }

  lemma {:induction false} PreorderSorted(s: Tree, p: Path)
    requires Valid(s) && p in s
    ensures StrictlySorted(Preorder(s, p))
    decreases |Under(s, p)|, 1, 0
  {
    var kids := ChildPaths(s, p);
    ForestSorted(s, p, kids);
    forall y | y in Forest(s, p, kids) ensures PathLess(p, y) {
      ForestMembers(s, p, kids);
      PrefixIsLess(p, y);
    }
    ConcatSorted([p], Forest(s, p, kids));
  }

  lemma BlocksAreLess(s: Tree, p: Path, ps: seq<Path>, a: Path, b: Path)
    requires ps != [] && IsChildList(p, ps)
    requires a in Under(s, ps[0]) && InSomeSubtree(s, ps[1..], b)
    ensures PathLess(a, b)
  {
    var c :| c in ps[1..] && b in Under(s, c);
    var k :| 0 <= k < |ps[1..]| && ps[1..][k] == c;
    assert c == ps[k + 1];
    assert p + [Leaf(ps[0])] == ps[0] && p + [Leaf(c)] == c;
    BranchesAreLess(p, Leaf(ps[0]), Leaf(c), a, b);
  }

  lemma ConcatSorted(a: seq<Path>, b: seq<Path>)
    requires StrictlySorted(a) && StrictlySorted(b)
    requires forall x, y :: x in a && y in b ==> PathLess(x, y)
    ensures StrictlySorted(a + b)
  {
  }

  lemma {:induction false} ForestSorted(s: Tree, p: Path, ps: seq<Path>)
    requires Valid(s) && p in s
    requires forall q :: q in ps ==> q in s && p < q
    requires IsChildList(p, ps)
    ensures StrictlySorted(Forest(s, p, ps))
    decreases |Under(s, p)|, 0, |ps|
  {
    if ps != [] {
      UnderChild(s, p, ps[0]);
      PreorderSorted(s, ps[0]);
      ForestSorted(s, p, ps[1..]);
      forall x, y | x in Preorder(s, ps[0]) && y in Forest(s, p, ps[1..]) ensures PathLess(x, y) {
        PreorderMembers(s, ps[0]);
        ForestMembers(s, p, ps[1..]);
        BlocksAreLess(s, p, ps, x, y);
      }
      ConcatSorted(Preorder(s, ps[0]), Forest(s, p, ps[1..]));
    }
  }

  /**
   * The walk order from outside: the one strictly ascending list, in component-wise lexical order, of exactly the node
   * and everything below it.
   */
  lemma PreorderIsTheSortedSubtree(s: Tree, p: Path)
    requires Valid(s) && p in s
    ensures StrictlySorted(Preorder(s, p))
    ensures forall q :: q in Preorder(s, p) <==> q in s && p <= q
  {
    PreorderSorted(s, p);
    PreorderMembers(s, p);
  }

  lemma SortedIsDuplicateFree(ps: seq<Path>, i: nat, j: nat)
    requires StrictlySorted(ps) && i < |ps| && j < |ps| && ps[i] == ps[j]
    ensures i == j
  {
    PathLessIrreflexive(ps[i]);
  }

  lemma AncestorIsEarlier(ps: seq<Path>, i: nat, j: nat)
    requires StrictlySorted(ps) && i < |ps| && j < |ps| && ps[i] < ps[j]
    ensures i < j
  {
    PrefixIsLess(ps[i], ps[j]);
  }

  /** Below `x` nothing comes before `x`. */
  lemma LessIsNotBelow(p: Path, x: Path)
    requires PathLess(p, x)
    ensures !(x <= p)
  {
    if x == p {
      PathLessIrreflexive(p);
    } else if x < p {
      PrefixIsLess(x, p);
    }
  }

  /** What comes before something below `x`, and is not below `x` itself, comes before `x`. */
  lemma {:induction false} LessThanBelow(p: Path, x: Path, q: Path)
    requires PathLess(p, q) && x <= q && !(x <= p)
    ensures PathLess(p, x)
  {
    assert x != [];
    if p != [] && p[0] == x[0] {
      assert x[1..] <= q[1..];
      assert !(x[1..] <= p[1..]) by {
        assert p == [p[0]] + p[1..] && x == [x[0]] + x[1..];
      }
      NameLessTotal(p[0], q[0]);
      LessThanBelow(p[1..], x[1..], q[1..]);
    }
  }

  /** Two sorted lists with the same elements before `x` begin alike, as far as they stay before `x`. */
  lemma {:induction false} SortedAgree(a: seq<Path>, b: seq<Path>, x: Path, n: nat)
    requires StrictlySorted(a) && StrictlySorted(b) && n <= |a|
    requires forall q :: PathLess(q, x) ==> (q in a <==> q in b)
    requires forall i | 0 <= i < n :: PathLess(a[i], x)
    ensures n <= |b| && a[..n] == b[..n]
  {
    if n > 0 {
      SortedAgree(a, b, x, n - 1);
      var y := a[n - 1];
      assert forall i | 0 <= i < n - 1 :: a[i] == a[..n - 1][i] == b[..n - 1][i] == b[i];
      assert y in a && y in b;
      var j :| 0 <= j < |b| && b[j] == y;
      if j < n - 1 {
        SortedIsDuplicateFree(a, j, n - 1);
      } else if n - 1 < j {
        PathLessTransitive(b[n - 1], y, x);
        assert b[n - 1] in b && b[n - 1] in a;
        var i :| 0 <= i < |a| && a[i] == b[n - 1];
        if i < n - 1 {
          SortedIsDuplicateFree(b, i, n - 1);
        } else if i == n - 1 {
          PathLessIrreflexive(y);
        } else {
          PathLessAsymmetric(y, b[n - 1]);
        }
      }
      assert a[..n] == a[..n - 1] + [y] && b[..n] == b[..n - 1] + [y];
    }
  }
}
