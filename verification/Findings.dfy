/**
 * Requests that the code takes in and on which it does not do, or say, what one would expect.
 */
module Findings {
  import opened Wrappers
  import opened Protocol
  import opened Paths
  import opened Validate
  import opened FileTree
  import opened TreeWalks
  import opened WalkTermination
  import Resolve
  import opened Services

  /** An ordinary name is its own normal form. */
  lemma NameIsNormal(name: string)
    requires IsName(name)
    ensures NormalizeRelative(name) == Ok(name) && Components(name) == [name] && Split(name) == [name]
  {
    SplitSlashless(name);
    ComponentsOfRender(false, [name]);
    NormalizeByComponents(name);
  }

  lemma DotIsNormal()
    ensures NormalizeRelative(DOT) == Ok(DOT) && Components(DOT) == []
  {
    ComponentsOfRender(false, []);
  }

  lemma ShareCanStart(s: Tree, processDir: string, root: string, name: string)
    requires FileTree.Valid(s) && root != "" && IsName(name)
    requires IsDirAt(s, Resolve.RootPath(processDir, root)) && Resolve.RootPath(processDir, root) + [name] !in s
    ensures var req := Request(VERSION1, OP_REFLINK, true, DOT, name, "");
            var src, dst := SourcePath(processDir, root, req), DestinationPath(processDir, root, req);
            Startable(s, processDir, root, req) && src < dst && CanStart(s, src, dst)
  {
    DotIsNormal();
    NameIsNormal(name);
    NormalizeSays(DOT);
    NormalizeSays(name);
    var req := Request(VERSION1, OP_REFLINK, true, DOT, name, "");
    var src, dst := SourcePath(processDir, root, req), DestinationPath(processDir, root, req);
    assert src == Resolve.RootPath(processDir, root) && dst == src + [name] && Parent(dst) == src;
  }

  /**
   * The share copied into itself: for every share whose root is a directory, the recursive request from `.` to a free
   * name passes every check that is made. The walk then comes to an end only if something in the share that cannot be
   * cloned comes before that name; otherwise it goes on for ever, as long as no path gets too long.
   */
  lemma ShareIntoItself(s: Tree, processDir: string, root: string, name: string, n: nat)
    requires FileTree.Valid(s) && root != "" && IsName(name)
    requires IsDirAt(s, Resolve.RootPath(processDir, root)) && Resolve.RootPath(processDir, root) + [name] !in s
    ensures var req := Request(VERSION1, OP_REFLINK, true, DOT, name, "");
            var src, dst := SourcePath(processDir, root, req), DestinationPath(processDir, root, req);
            && Startable(s, processDir, root, req) && src < dst
            && (!StopsBefore(s, src, dst) ==> Turns(s, src, dst, n).Some? && Turns(s, src, dst, n).value.stack != [])
            && (StopsBefore(s, src, dst) ==> exists m: nat :: Turns(s, src, dst, m).None?)
  {
    ShareCanStart(s, processDir, root, name);
    var req := Request(VERSION1, OP_REFLINK, true, DOT, name, "");
    var src, dst := SourcePath(processDir, root, req), DestinationPath(processDir, root, req);
    if StopsBefore(s, src, dst) {
      WalkEndsIff(s, src, dst);
    } else {
      WalkNeverEnds(s, src, dst, n);
    }
  }

  /**
   * A link to itself: the resolver follows it until its budget is spent, so the path is answered EPERM, as if it left
   * the share, where every other path with a link in it is answered EINVAL.
   */
  lemma LinkToItself(s: Tree, processDir: string, root: string, name: string)
    requires root != "" && IsName(name)
    requires var p := Resolve.RootPath(processDir, root) + [name]; p in s && s[p] == Symlink(name)
    ensures Resolve.PathRefusal(s, processDir, root, name)
            == Some(FailureResponse(EPerm, "path must stay within the shared root"))
  {
    NameIsNormal(name);
    LinkLoops(s, Resolve.RootPath(processDir, root), name, 0);
  }

  lemma {:induction false} LinkLoops(s: Tree, root: Path, name: string, linksWalked: nat)
    requires IsName(name) && Split(name) == [name] && linksWalked <= Resolve.MAX_SYMLINKS
    requires root + [name] in s && s[root + [name]] == Symlink(name)
    ensures Resolve.Resolved(s, root, [], [name], linksWalked).None?
    decreases Resolve.MAX_SYMLINKS - linksWalked
  {
    assert [] + [name] == [name];
    assert [name][1..] == [] && [name] + [] == [name];
    if linksWalked < Resolve.MAX_SYMLINKS {
      LinkLoops(s, root, name, linksWalked + 1);
    }
  }

  /** Links in a row below the root, each to the name of the next; the last name is no link. */
  ghost predicate Chain(s: Tree, root: Path, names: seq<string>) {
    && names != [] && (forall i | 0 <= i < |names| :: IsName(names[i]))
    && (forall i | 0 <= i < |names| - 1 :: root + [names[i]] in s && s[root + [names[i]]] == Symlink(names[i + 1]))
    && (root + [names[|names| - 1]] in s ==> !s[root + [names[|names| - 1]]].Symlink?)
  }

  /** A chain of links leads to its last name if there are no more than 255 of them, and nowhere otherwise. */
  lemma ChainOfLinks(s: Tree, root: Path, names: seq<string>)
    requires Chain(s, root, names)
    ensures Resolve.Resolved(s, root, [], [names[0]], 0)
            == if |names| - 1 <= 255 then Some(root + [names[|names| - 1]]) else None
  {
    ChainFrom(s, root, names, 0, 0);
  }

  lemma {:induction false} ChainFrom(s: Tree, root: Path, names: seq<string>, i: nat, linksWalked: nat)
    requires Chain(s, root, names) && i < |names| && linksWalked <= 255
    ensures Resolve.Resolved(s, root, [], [names[i]], linksWalked)
            == if linksWalked + |names| - 1 - i <= 255 then Some(root + [names[|names| - 1]]) else None
    decreases |names| - i
  {
    var name := names[i];
    NameIsNormal(name);
    assert [] + [name] == [name] && [name][1..] == [];
    if i < |names| - 1 {
      NameIsNormal(names[i + 1]);
      assert [names[i + 1]] + [] == [names[i + 1]];
      if linksWalked < 255 {
        ChainFrom(s, root, names, i + 1, linksWalked + 1);
      }
    } else {
      assert Resolve.Resolved(s, root, [name], [], linksWalked) == Some(root + [name]);
    }
  }

  /** The same link leading nowhere is answered EINVAL. */
  lemma LinkToNowhere(s: Tree, processDir: string, root: string, name: string, target: string)
    requires root != "" && IsName(name) && IsName(target)
    requires var p := Resolve.RootPath(processDir, root) + [name]; p in s && s[p] == Symlink(target)
    requires Resolve.RootPath(processDir, root) + [target] !in s
    ensures Resolve.PathRefusal(s, processDir, root, name)
            == Some(FailureResponse(EInval, "symlinks are not supported"))
  {
    NameIsNormal(name);
    NameIsNormal(target);
    var rootPath := Resolve.RootPath(processDir, root);
    assert [] + [name] == [name] && [] + [target] == [target];
    assert [name][1..] == [] && [target][1..] == [] && [target] + [] == [target];
    assert Resolve.Resolved(s, rootPath, [target], [], 1).Some?;
    assert Resolve.Resolved(s, rootPath, [], [target], 1).Some?;
    assert Resolve.Resolved(s, rootPath, [], [name], 0).Some?;
    assert !Resolve.LinkFree(s, rootPath, [name]) by {
      assert rootPath + [name][..1] == rootPath + [name];
    }
  }

  /** A destination below a regular file is refused with the words for a missing source. */
  lemma DestinationBelowFile(s: Tree, processDir: string, root: string, name: string, below: string)
    requires FileTree.Valid(s) && root != "" && IsName(name) && IsName(below)
    requires var p := Resolve.RootPath(processDir, root) + [name]; p in s && s[p].File?
    ensures NormalizeRelative(name + "/" + below).Ok?
    ensures !Resolve.DestinationFree(s, processDir, root, name + "/" + below)
    ensures Resolve.DestinationRefusal(s, processDir, root, name + "/" + below)
            == FailureResponse(ENoEnt, "source not found")
  {
    var rootPath, rel, parts := Resolve.RootPath(processDir, root), name + "/" + below, [name, below];
    assert Render(false, parts) == rel by {
      assert parts[1..] == [below] && JoinSlash([below]) == below;
      assert JoinSlash(parts) == parts[0] + "/" + JoinSlash(parts[1..]);
    }
    ComponentsOfRender(false, parts);
    NormalizeByComponents(rel);
    Resolve.NormalizedIsClean(rel);
    var p, q := rootPath + [name], rootPath + parts;
    assert Parent(q) == p && parts[..1] == [name] && parts[..2] == parts;
    assert q !in s;
    forall i | 0 < i <= |parts| && rootPath + parts[..i] in s ensures !s[rootPath + parts[..i]].Symlink? {
      assert i == 1 && rootPath + parts[..i] == p;
    }
    Resolve.CleanDoesNotGiveUp(s, rootPath, rel);
    assert Resolve.FirstMissing(s, rootPath, parts, 2) == q;
    assert Resolve.FirstMissing(s, rootPath, parts, 1) == q;
  }
}
