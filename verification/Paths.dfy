/**
 * Slash-separated paths as `path/filepath` treats them on Linux: splitting, Clean, Join and Rel.
 * A path is cleaned by rewriting its components, so each function comes as a text level and a component level.
 */
module Paths {

  const DOT := "."
  const DOTDOT := ".."

  /** An ordinary file name: what a component is after cleaning, `..foo` included. */
  predicate IsName(s: string) {
    s != "" && s != DOT && s != DOTDOT && '/' !in s
  }

  predicate AllNames(parts: seq<string>) {
    forall i | 0 <= i < |parts| :: IsName(parts[i])
  }

  predicate Slashless(parts: seq<string>) {
    forall i | 0 <= i < |parts| :: '/' !in parts[i]
  }

  /** `strings.Split(s, "/")`. */
  function Split(s: string): (parts: seq<string>)
    ensures |parts| > 0 && Slashless(parts)
  {
    if s == "" then [""]
    else if s[0] == '/' then [""] + Split(s[1..])
    else
      var rest := Split(s[1..]);
      [[s[0]] + rest[0]] + rest[1..]
  }

  /** `strings.Join(parts, "/")`. */
  function JoinSlash(parts: seq<string>): string {
    if parts == [] then ""
    else if |parts| == 1 then parts[0]
    else parts[0] + "/" + JoinSlash(parts[1..])
  }

  predicate IsAbs(path: string) {
    path != "" && path[0] == '/'
  }

  /** One component applied to the components cleaned so far. */
  function Push(abs: bool, acc: seq<string>, part: string): seq<string> {
    if part == "" || part == DOT then acc
    else if part == DOTDOT then
      if acc != [] && acc[|acc| - 1] != DOTDOT then acc[..|acc| - 1]
      else if abs then acc
      else acc + [DOTDOT]
    else acc + [part]
  }

  function CleanParts(abs: bool, acc: seq<string>, parts: seq<string>): seq<string>
    decreases |parts|
  {
    if parts == [] then acc else CleanParts(abs, Push(abs, acc, parts[0]), parts[1..])
  }

  function Render(abs: bool, parts: seq<string>): string {
    if abs then "/" + JoinSlash(parts)
    else if parts == [] then DOT
    else JoinSlash(parts)
  }

  /** The components of the cleaned path; `.` and `/` have none. */
  function Components(path: string): seq<string> {
    CleanParts(IsAbs(path), [], Split(path))
  }

  /** `filepath.Clean`. */
  function Clean(path: string): string {
    Render(IsAbs(path), Components(path))
  }

  /** `filepath.Join` of two elements: empty elements are ignored. */
  function Join(a: string, b: string): string {
    if a == "" then (if b == "" then "" else Clean(b))
    else if b == "" then Clean(a)
    else Clean(a + "/" + b)
  }

  function CommonPrefix(a: seq<string>, b: seq<string>): (n: nat)
    ensures n <= |a| && n <= |b| && a[..n] == b[..n]
    ensures n < |a| && n < |b| ==> a[n] != b[n]
  {
    if a != [] && b != [] && a[0] == b[0] then
      var m := CommonPrefix(a[1..], b[1..]);
      assert a[..m + 1] == [a[0]] + a[1..][..m] && b[..m + 1] == [b[0]] + b[1..][..m];
      m + 1
    else 0
  }

  /** `filepath.Rel` of two cleaned absolute paths: climb out of what is left of the base, then descend. */
  function RelParts(base: seq<string>, target: seq<string>): seq<string> {
    var n := CommonPrefix(base, target);
    seq(|base| - n, _ => DOTDOT) + target[n..]
  }

  // ---------------------------------------------------------------------------------------------
  // What cleaning means
  // ---------------------------------------------------------------------------------------------

  /** The directory reached from an absolute one by following components; `..` stays at the root. */
  function Follow(dir: seq<string>, parts: seq<string>): seq<string>
    decreases |parts|
  {
    if parts == [] then dir
    else if parts[0] == "" || parts[0] == DOT then Follow(dir, parts[1..])
    else if parts[0] == DOTDOT then Follow(if dir == [] then [] else dir[..|dir| - 1], parts[1..])
    else Follow(dir + [parts[0]], parts[1..])
  }

  /** What Clean leaves: for a relative path some leading `..`, then names; for an absolute one names only. */
  predicate Canonical(abs: bool, parts: seq<string>) {
    && Slashless(parts)
    && (forall i | 0 <= i < |parts| :: parts[i] != "" && parts[i] != DOT)
    && (forall i | 0 <= i < |parts| :: parts[i] == DOTDOT ==> !abs && forall j | 0 <= j < i :: parts[j] == DOTDOT)
  }

  lemma {:induction false} CleanPartsCanonical(abs: bool, acc: seq<string>, parts: seq<string>)
    requires Canonical(abs, acc) && Slashless(parts)
    ensures Canonical(abs, CleanParts(abs, acc, parts))
    decreases |parts|
  {
    if parts != [] {
      CleanPartsCanonical(abs, Push(abs, acc, parts[0]), parts[1..]);
    }
  }

  lemma {:induction false} CleanPartsOfCanonical(abs: bool, acc: seq<string>, parts: seq<string>)
    requires Canonical(abs, acc + parts)
    ensures CleanParts(abs, acc, parts) == acc + parts
    decreases |parts|
  {
    if parts == [] {
      assert acc + parts == acc;
    } else {
      assert (acc + parts)[|acc|] == parts[0];
      assert acc != [] ==> (acc + parts)[|acc| - 1] == acc[|acc| - 1];
      assert Push(abs, acc, parts[0]) == acc + [parts[0]];
      assert (acc + [parts[0]]) + parts[1..] == acc + parts;
      CleanPartsOfCanonical(abs, acc + [parts[0]], parts[1..]);
    }
  }

  lemma {:induction false} SplitSlashless(s: string)
    requires '/' !in s
    ensures Split(s) == [s]
  {
    if s != "" {
      assert s[0] in s;
      SplitSlashless(s[1..]);
      assert [s[0]] + s[1..] == s;
    }
  }

  lemma GrowFirst(c: char, a: seq<string>, b: seq<string>)
    requires a != []
    ensures [[c] + (a + b)[0]] + (a + b)[1..] == [[c] + a[0]] + a[1..] + b
  {
    assert (a + b)[1..] == a[1..] + b;
  }

  lemma {:induction false} SplitConcat(a: string, b: string)
    ensures Split(a + "/" + b) == Split(a) + Split(b)
  {
    var text := a + "/" + b;
    if a == "" {
      assert text[1..] == b;
    } else {
      assert text[1..] == a[1..] + "/" + b && text[0] == a[0];
      SplitConcat(a[1..], b);
      if a[0] == '/' {
        assert [""] + (Split(a[1..]) + Split(b)) == [""] + Split(a[1..]) + Split(b);
      } else {
        GrowFirst(a[0], Split(a[1..]), Split(b));
      }
    }
  }

  lemma {:induction false} SplitJoin(parts: seq<string>)
    requires parts != [] && Slashless(parts)
    ensures Split(JoinSlash(parts)) == parts
  {
    SplitSlashless(parts[0]);
    if |parts| > 1 {
      SplitConcat(parts[0], JoinSlash(parts[1..]));
      SplitJoin(parts[1..]);
    }
  }

  lemma ComponentsCanonical(path: string)
    ensures Canonical(IsAbs(path), Components(path))
  {
    CleanPartsCanonical(IsAbs(path), [], Split(path));
  }

  /** Rendering loses nothing: the components of a rendered canonical path are the ones rendered. */
  lemma ComponentsOfRender(abs: bool, parts: seq<string>)
    requires Canonical(abs, parts)
    ensures IsAbs(Render(abs, parts)) == abs
    ensures Components(Render(abs, parts)) == parts
  {
    var text := Render(abs, parts);
    if parts == [] {
      if abs {
        assert text == "/" && text[1..] == "";
        assert Split("/") == [""] + Split("");
        assert CleanParts(true, [], ["", ""]) == CleanParts(true, [], [""]);
      } else {
        SplitSlashless(DOT);
        assert CleanParts(false, [], [DOT]) == [];
      }
    } else {
      SplitJoin(parts);
      CleanPartsOfCanonical(abs, [], parts);
      assert [] + parts == parts;
      if abs {
        assert text[1..] == JoinSlash(parts);
        assert Split(text) == [""] + parts;
        assert ([""] + parts)[1..] == parts;
      } else {
        JoinStart(parts);
      }
    }
  }

  lemma JoinStart(parts: seq<string>)
    requires parts != [] && parts[0] != "" && '/' !in parts[0]
    ensures JoinSlash(parts) != "" && JoinSlash(parts)[0] == parts[0][0] && !IsAbs(JoinSlash(parts))
  {
    assert parts[0][0] in parts[0];
  }

  lemma CleanIdempotent(path: string)
    ensures Clean(Clean(path)) == Clean(path)
    ensures Components(Clean(path)) == Components(path) && IsAbs(Clean(path)) == IsAbs(path)
  {
    ComponentsCanonical(path);
    ComponentsOfRender(IsAbs(path), Components(path));
  }

  /** Two canonical paths of one kind are the same text only if they have the same components. */
  lemma RenderInjective(abs: bool, a: seq<string>, b: seq<string>)
    requires Canonical(abs, a) && Canonical(abs, b) && Render(abs, a) == Render(abs, b)
    ensures a == b
  {
    ComponentsOfRender(abs, a);
    ComponentsOfRender(abs, b);
  }

  lemma {:induction false} CleanFollows(dir: seq<string>, parts: seq<string>)
    requires AllNames(dir)
    requires Slashless(parts)
    ensures CleanParts(true, dir, parts) == Follow(dir, parts)
    ensures AllNames(Follow(dir, parts))
    decreases |parts|
  {
    if parts != [] {
      CleanFollows(Push(true, dir, parts[0]), parts[1..]);
    }
  }

  lemma {:induction false} FollowConcat(dir: seq<string>, a: seq<string>, b: seq<string>)
    ensures Follow(dir, a + b) == Follow(Follow(dir, a), b)
    decreases |a|
  {
    if a == [] {
      assert a + b == b;
    } else {
      assert (a + b)[1..] == a[1..] + b;
      FollowConcat(if a[0] == "" || a[0] == DOT then dir
                   else if a[0] == DOTDOT then (if dir == [] then [] else dir[..|dir| - 1])
                   else dir + [a[0]], a[1..], b);
    }
  }

  // ---------------------------------------------------------------------------------------------
  // Leaving the start directory, decided by counting
  // ---------------------------------------------------------------------------------------------

  function Ups(parts: seq<string>): nat {
    if parts == [] then 0 else (if parts[0] == DOTDOT then 1 else 0) + Ups(parts[1..])
  }

  function Downs(parts: seq<string>): nat {
    if parts == [] then 0 else (if IsName(parts[0]) then 1 else 0) + Downs(parts[1..])
  }

  /** In every prefix, starting `depth` levels down, the `..` do not outnumber the levels available. */
  ghost predicate StaysInside(depth: nat, parts: seq<string>) {
    forall k | 0 <= k <= |parts| :: Ups(parts[..k]) <= depth + Downs(parts[..k])
  }

  lemma {:induction false} StaysInsideStep(depth: nat, parts: seq<string>)
    requires parts != [] && Slashless(parts)
    ensures parts[0] == DOTDOT ==> (StaysInside(depth, parts) <==> depth > 0 && StaysInside(depth - 1, parts[1..]))
    ensures IsName(parts[0]) ==> (StaysInside(depth, parts) <==> StaysInside(depth + 1, parts[1..]))
    ensures parts[0] == "" || parts[0] == DOT ==> (StaysInside(depth, parts) <==> StaysInside(depth, parts[1..]))
  {
    var rest := parts[1..];
    var up := if parts[0] == DOTDOT then 1 else 0;
    var down := if IsName(parts[0]) then 1 else 0;
    forall k | 0 <= k <= |rest|
      ensures Ups(parts[..k + 1]) == up + Ups(rest[..k]) && Downs(parts[..k + 1]) == down + Downs(rest[..k])
    {
      assert parts[..k + 1][1..] == rest[..k];
    }
    assert Ups(parts[..0]) == 0;
    assert rest[..0] == [] && Ups(rest[..0]) == 0 && Downs(rest[..0]) == 0;
    assert StaysInside(depth, parts) <==>
      forall k | 0 <= k <= |rest| :: up + Ups(rest[..k]) <= depth + down + Downs(rest[..k]) by {
      if forall k | 0 <= k <= |rest| :: up + Ups(rest[..k]) <= depth + down + Downs(rest[..k]) {
        forall k | 0 <= k <= |parts| ensures Ups(parts[..k]) <= depth + Downs(parts[..k]) {
          if k > 0 { assert up + Ups(rest[..k - 1]) <= depth + down + Downs(rest[..k - 1]); }
        }
      }
      if StaysInside(depth, parts) {
        forall k | 0 <= k <= |rest| ensures up + Ups(rest[..k]) <= depth + down + Downs(rest[..k]) {
          assert Ups(parts[..k + 1]) <= depth + Downs(parts[..k + 1]);
        }
      }
    }
    if parts[0] == DOTDOT && StaysInside(depth, parts) {
      assert up + Ups(rest[..0]) <= depth + down + Downs(rest[..0]);
    }
  }

  lemma {:induction false} EscapeIsForever(acc: seq<string>, parts: seq<string>)
    requires acc != [] && acc[0] == DOTDOT && Canonical(false, acc) && Slashless(parts)
    ensures CleanParts(false, acc, parts) != [] && CleanParts(false, acc, parts)[0] == DOTDOT
    decreases |parts|
  {
    if parts != [] {
      EscapeIsForever(Push(false, acc, parts[0]), parts[1..]);
    }
  }

  /**
   * A relative path cleans to one without `..` exactly when it never climbs above its start, and then it names,
   * from every directory, the same place as the uncleaned path.
   */
  lemma {:induction false} CleanStaysInside(acc: seq<string>, parts: seq<string>)
    requires AllNames(acc) && Slashless(parts)
    ensures StaysInside(|acc|, parts) <==> AllNames(CleanParts(false, acc, parts))
    ensures !StaysInside(|acc|, parts) ==>
              CleanParts(false, acc, parts) != [] && CleanParts(false, acc, parts)[0] == DOTDOT
    ensures StaysInside(|acc|, parts) ==>
              forall dir :: Follow(dir + acc, parts) == dir + CleanParts(false, acc, parts)
    decreases |parts|
  {
    if parts == [] {
      assert StaysInside(|acc|, parts);
    } else {
      StaysInsideStep(|acc|, parts);
      if parts[0] == DOTDOT && acc == [] {
        assert Push(false, acc, parts[0]) == [DOTDOT];
        EscapeIsForever([DOTDOT], parts[1..]);
        assert !IsName(CleanParts(false, acc, parts)[0]);
      } else {
        var next := Push(false, acc, parts[0]);
        CleanStaysInside(next, parts[1..]);
        forall dir | StaysInside(|acc|, parts)
          ensures Follow(dir + acc, parts) == dir + CleanParts(false, acc, parts)
        {
          if parts[0] == DOTDOT {
            assert (dir + acc)[..|dir + acc| - 1] == dir + next;
          } else if IsName(parts[0]) {
            assert dir + acc + [parts[0]] == dir + next;
          }
          assert Follow(dir + next, parts[1..]) == dir + CleanParts(false, next, parts[1..]);
        }
      }
    }
  }
}
