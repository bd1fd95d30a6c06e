/**
 * A share as a map from absolute paths to nodes, what the system calls the code makes do to it, and the order in which
 * filepath.WalkDir visits it.
 */
module FileTree {
  import opened Wrappers
  import opened Protocol

  type Path = seq<string>
  type Content = seq<bv8>

  /** Permission bits and the three bits above them. */
  datatype Attr = Attr(perm: bv9, setuid: bool, setgid: bool, sticky: bool)

  datatype Kind = Directory | Regular | SymbolicLink | Irregular

  /** `fs.FileMode`: type and attributes. */
  datatype FileMode = FileMode(kind: Kind, attr: Attr)

  datatype Node =
    | Dir(attr: Attr)
    | File(content: Content, attr: Attr, nlink: nat)
    | Symlink(target: string)
    | Other(attr: Attr)

  type Tree = map<Path, Node>

  datatype FileInfo = FileInfo(mode: FileMode, nlink: nat)

  const LINK_ATTR := Attr(0x1FF, false, false, false)

  /** What Lstat reports. */
  function Info(n: Node): FileInfo {
    match n
    case Dir(attr) => FileInfo(FileMode(Directory, attr), 2)
    case File(_, attr, nlink) => FileInfo(FileMode(Regular, attr), nlink)
    case Symlink(_) => FileInfo(FileMode(SymbolicLink, LINK_ATTR), 1)
    case Other(attr) => FileInfo(FileMode(Irregular, attr), 1)
  }

  /** `FileMode.Perm`: permission bits only. */
  function Perm(m: FileMode): FileMode {
    FileMode(Regular, Attr(m.attr.perm, false, false, false))
  }

  // ---------------------------------------------------------------------------------------------
  // Shape of a tree
  // ---------------------------------------------------------------------------------------------

  function Parent(p: Path): Path
    requires p != []
  {
    p[..|p| - 1]
  }

  function Leaf(p: Path): string
    requires p != []
  {
    p[|p| - 1]
  }

  predicate IsDirAt(s: Tree, p: Path) {
    p in s && s[p].Dir?
  }

  /** Every node but the root sits in a directory. */
  ghost predicate Valid(s: Tree) {
    && IsDirAt(s, [])
    && forall p {:trigger Parent(p), p in s} :: p in s && p != [] ==> IsDirAt(s, Parent(p))
  }

  lemma {:induction false} AncestorsAreDirs(s: Tree, p: Path, i: nat)
    requires Valid(s) && p in s && i < |p|
    ensures IsDirAt(s, p[..i])
    decreases |p| - i
  {
    if i + 1 == |p| {
      assert p[..i] == Parent(p);
    } else {
      AncestorsAreDirs(s, p, i + 1);
      assert Parent(p[..i + 1]) == p[..i];
    }
  }

  /** No proper ancestor of `p` is a symbolic link, so that the kernel resolves `p` without following one. */
  ghost predicate NoLinkAbove(s: Tree, p: Path) {
    forall i | 0 <= i < |p| :: p[..i] in s ==> !s[p[..i]].Symlink?
  }

  lemma PresentHasNoLinkAbove(s: Tree, p: Path)
    requires Valid(s) && (p in s || (p != [] && Parent(p) in s && !s[Parent(p)].Symlink?))
    ensures NoLinkAbove(s, p)
  {
    forall i | 0 <= i < |p| && p[..i] in s
      ensures !s[p[..i]].Symlink?
    {
      if p in s {
        AncestorsAreDirs(s, p, i);
      } else if i < |p| - 1 {
        AncestorsAreDirs(s, Parent(p), i);
        assert Parent(p)[..i] == p[..i];
      } else {
        assert p[..i] == Parent(p);
      }
    }
  }

  // ---------------------------------------------------------------------------------------------
  // What calls do when nothing else goes wrong
  // ---------------------------------------------------------------------------------------------

  /** Why looking up an absent path fails: a missing component, or one that is not a directory. */
  function Missing(s: Tree, p: Path): (e: Errno)
    ensures e == ENOENT || e == ENOTDIR
    decreases |p|
  {
    if p == [] then ENOENT
    else if Parent(p) in s then (if s[Parent(p)].Dir? then ENOENT else ENOTDIR)
    else Missing(s, Parent(p))
  }

  /** mkdir(2), and open(2) with O_CREAT|O_EXCL: fails if the name is taken or there is no directory to put it in. */
  function CreateErrno(s: Tree, p: Path): Option<Errno> {
    if p in s then Some(EEXIST)
    else if p != [] && IsDirAt(s, Parent(p)) then None
    else Some(Missing(s, p))
  }

  function RemoveErrno(s: Tree, p: Path): Option<Errno> {
    if p !in s then Some(Missing(s, p))
    else if s[p].Dir? && (p == [] || ChildNames(s, p) != {}) then Some(ENOTEMPTY)
    else None
  }

  /** FICLONE from an open source: only a regular file has extents to share. */
  function CloneErrno(s: Tree, src: Path): Option<Errno> {
    if src !in s then Some(EIO)
    else
      match s[src]
      case File(_, _, _) => None
      case Dir(_) => Some(EISDIR)
      case _ => Some(EINVAL)
  }

  function SetAttr(n: Node, attr: Attr): Node
    requires !n.Symlink?
  {
    match n
    case Dir(_) => Dir(attr)
    case File(c, _, l) => File(c, attr, l)
    case Other(_) => Other(attr)
  }

  lemma AddKeepsValid(s: Tree, p: Path, n: Node)
    requires Valid(s) && CreateErrno(s, p).None?
    ensures Valid(s[p := n])
  {
  }

  lemma UpdateKeepsValid(s: Tree, p: Path, n: Node)
    requires Valid(s) && p in s && (s[p].Dir? ==> n.Dir?)
    ensures Valid(s[p := n])
  {
  }

  lemma RemoveKeepsValid(s: Tree, p: Path)
    requires Valid(s) && RemoveErrno(s, p).None?
    ensures Valid(s - {p})
  {
    assert forall q :: q in s && q != [] && Parent(q) == p ==> Leaf(q) in ChildNames(s, p);
  }

  // ---------------------------------------------------------------------------------------------
  // Lexical order
  // ---------------------------------------------------------------------------------------------

  /** Byte order of file names, which for UTF-8 is the order of their characters. */
  predicate NameLess(a: string, b: string) {
    b != "" && (a == "" || a[0] < b[0] || (a[0] == b[0] && NameLess(a[1..], b[1..])))
  }

  /** The order of names: the first character in which they differ decides, or else the shorter one is less. */
  lemma {:induction false} NameLessMeans(a: string, b: string) returns (n: nat)
    ensures n <= |a| && n <= |b| && a[..n] == b[..n] && (n < |a| && n < |b| ==> a[n] != b[n])
    ensures NameLess(a, b) <==> n < |b| && (n == |a| || a[n] < b[n])
  {
    n := 0;
    if a != "" && b != "" && a[0] == b[0] {
      n := NameLessMeans(a[1..], b[1..]);
      assert a == [a[0]] + a[1..] && b == [b[0]] + b[1..];
      n := n + 1;
    }
  }

  lemma {:induction false} NameLessTotal(a: string, b: string)
    ensures a != b ==> NameLess(a, b) || NameLess(b, a)
    ensures !(NameLess(a, b) && NameLess(b, a)) && !NameLess(a, a)
  {
    if a != "" {
      NameLessTotal(a[1..], a[1..]);
      if b != "" {
        NameLessTotal(a[1..], b[1..]);
        assert a == [a[0]] + a[1..] && b == [b[0]] + b[1..];
      }
    }
  }

  lemma {:induction false} NameLessTransitive(a: string, b: string, c: string)
    requires NameLess(a, b) && NameLess(b, c)
    ensures NameLess(a, c)
  {
    if a != "" && a[0] == b[0] && b[0] == c[0] {
      NameLessTransitive(a[1..], b[1..], c[1..]);
    }
  }

  predicate IsLeastName(m: string, names: set<string>) {
    m in names && forall x :: x in names && x != m ==> NameLess(m, x)
  }

  lemma {:induction false} LeastNameExists(names: set<string>)
    requires names != {}
    ensures exists m :: IsLeastName(m, names)
    decreases |names|
  {
    var m :| m in names;
    var rest := names - {m};
    if rest == {} {
      assert names == {m};
      assert IsLeastName(m, names);
    } else {
      LeastNameExists(rest);
      var r :| IsLeastName(r, rest);
      NameLessTotal(m, r);
      if NameLess(r, m) {
        assert IsLeastName(r, names);
      } else {
        forall x | x in names && x != m ensures NameLess(m, x) {
          if x != r { NameLessTransitive(m, r, x); }
        }
        assert IsLeastName(m, names);
      }
    }
  }

  ghost function LeastName(names: set<string>): (m: string)
    requires names != {}
    ensures IsLeastName(m, names)
  {
    LeastNameExists(names);
    var m :| IsLeastName(m, names);
    m
  }

  predicate Ascending(names: seq<string>) {
    forall i, j | 0 <= i < j < |names| :: NameLess(names[i], names[j])
  }

  /** A set of names in lexical order. */
  ghost function SortNames(names: set<string>): (r: seq<string>)
    ensures Ascending(r)
    ensures forall x :: x in r <==> x in names
    decreases |names|
  {
    if names == {} then []
    else
      var m := LeastName(names);
      var rest := SortNames(names - {m});
      assert forall j | 0 <= j < |rest| :: rest[j] in names - {m};
      [m] + rest
  }

  /** Only one ascending sequence lists a given set. */
  lemma {:induction false} AscendingUnique(a: seq<string>, b: seq<string>)
    requires Ascending(a) && Ascending(b)
    requires forall x :: x in a <==> x in b
    ensures a == b
    decreases |a|
  {
    assert b != [] ==> b[0] in a;
    if a != [] {
      assert a[0] in b;
      assert b != [] && b[0] in a;
      var i :| 0 <= i < |b| && b[i] == a[0];
      var j :| 0 <= j < |a| && a[j] == b[0];
      NameLessTotal(a[0], b[0]);
      forall x ensures x in a[1..] <==> x in b[1..] {
        if x in a[1..] {
          var k :| 0 <= k < |a[1..]| && a[1..][k] == x;
          assert a[k + 1] == x;
          NameLessTotal(a[0], x);
          assert x in b;
        }
        if x in b[1..] {
          var k :| 0 <= k < |b[1..]| && b[1..][k] == x;
          assert b[k + 1] == x;
          NameLessTotal(b[0], x);
          assert x in a;
        }
      }
      AscendingUnique(a[1..], b[1..]);
    }
  }

  /** The names a directory holds. */
  function ChildNames(s: Tree, p: Path): set<string> {
    set q | q in s && |q| == |p| + 1 && p <= q :: Leaf(q)
  }

  lemma ChildNamesMember(s: Tree, p: Path, name: string)
    ensures name in ChildNames(s, p) <==> p + [name] in s
  {
    if p + [name] in s {
      assert Leaf(p + [name]) == name;
    }
    if name in ChildNames(s, p) {
      var q :| q in s && |q| == |p| + 1 && p <= q && Leaf(q) == name;
      assert q == p + [name];
    }
  }
}
