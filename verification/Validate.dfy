/**
 * The pure half of internal/validate/validate.go, and the guest's buildRequest (cmd/vreflink/main.go): how a path typed
 * in the guest becomes the relative path the host accepts.
 */
module Validate {
  import opened Wrappers
  import opened Protocol
  import opened Paths

  function NormalizeRelative(path: string): Result<string, Error> {
    if path == "" then Err(NewError(EInval, "path is required"))
    else
      var clean := Clean(path);
      if clean == DOT then Ok(DOT)
      else if IsAbs(clean) then Err(NewError(EPerm, "absolute paths are not allowed"))
      else if clean == DOTDOT || (|clean| >= 3 && clean[..3] == DOTDOT + "/") then
        Err(NewError(EPerm, "path must stay within the shared root"))
      else Ok(clean)
  }

  /** A relative path that does not leave the place it starts from. */
  ghost predicate Inside(path: string) {
    path != "" && !IsAbs(path) && StaysInside(0, Split(path))
  }

  /** What is said about a path that is not inside. */
  function PathComplaint(path: string): Response {
    if path == "" then FailureResponse(EInval, "path is required")
    else if IsAbs(path) then FailureResponse(EPerm, "absolute paths are not allowed")
    else FailureResponse(EPerm, "path must stay within the shared root")
  }

  /** A request that says something the service can try to do. */
  ghost predicate Sound(req: Request) {
    WellFormed(req) && Inside(req.src) && Inside(req.dst)
  }

  /** The response to a request that is not sound. */
  ghost function BadRequest(req: Request): Response {
    if !WellFormed(req) then FailureResponse(EInval, Complaint(req))
    else if !Inside(req.src) then PathComplaint(req.src)
    else PathComplaint(req.dst)
  }

  function ValidRequest(req: Request): (refused: Option<Error>)
    ensures refused.None? <==> Sound(req)
    ensures refused.Some? ==> ResponseFromError(refused) == BadRequest(req)
  {
    NormalizeAccepts(req.src);
    NormalizeAccepts(req.dst);
    NormalizeSays(req.src);
    NormalizeSays(req.dst);
    var refused := ValidateRequest(req);
    if refused.Some? then refused
    else
      var src := NormalizeRelative(req.src);
      if src.Err? then Some(src.error)
      else
        var dst := NormalizeRelative(req.dst);
        if dst.Err? then Some(dst.error) else None
  }

  /** `normalizeRoot`: absolute, taken from the process's working directory if relative, and cleaned. */
  function NormalizeRoot(processDir: string, root: string): Result<string, Error> {
    if root == "" then Err(NewError(EInval, "share root is required"))
    else if IsAbs(root) then Ok(Clean(root))
    else Ok(Join(processDir, root))
  }

  function GuestToRelative(processDir: string, mountRoot: string, guestPath: string): Result<string, Error> {
    var root := NormalizeRoot(processDir, mountRoot);
    if root.Err? then Err(root.error)
    else
      var cleanGuest := Clean(guestPath);
      if !IsAbs(cleanGuest) then Err(NewError(EPerm, "guest paths must be absolute"))
      else
        var rel := Render(false, RelParts(Components(root.value), Components(cleanGuest)));
        var normalized := NormalizeRelative(rel);
        if normalized.Err? then Err(NewError(EPerm, "path must stay within the guest mount root"))
        else normalized
  }

  function GuestArgument(cwd: string, arg: string): string {
    if IsAbs(arg) then arg else Join(cwd, arg)
  }

  function ResolveGuestArgument(processDir: string, mountRoot: string, cwd: string,
                                arg: string): Result<string, Error> {
    if arg == "" then Err(NewError(EInval, "path is required"))
    else GuestToRelative(processDir, mountRoot, GuestArgument(cwd, arg))
  }

  function BuildRequest(processDir: string, mountRoot: string, authToken: string, cwd: string,
                        srcArg: string, dstArg: string, recursive: bool): Result<Request, Error> {
    var src := ResolveGuestArgument(processDir, mountRoot, cwd, srcArg);
    if src.Err? then Err(src.error)
    else
      var dst := ResolveGuestArgument(processDir, mountRoot, cwd, dstArg);
      if dst.Err? then Err(dst.error)
      else
        var version := if authToken != "" then VERSION2 else VERSION1;
        Ok(Request(version, OP_REFLINK, recursive, src.value, dst.value, authToken))
  }

  // ---------------------------------------------------------------------------------------------

  /** The two textual tests for an escape see exactly a first component `..`. */
  lemma EscapeTest(parts: seq<string>)
    requires Canonical(false, parts) && parts != []
    ensures (Render(false, parts) == DOTDOT
          || (|Render(false, parts)| >= 3 && Render(false, parts)[..3] == DOTDOT + "/"))
       <==> parts[0] == DOTDOT
  {
    var text := Render(false, parts);
    ComponentsOfRender(false, parts);
    if |text| >= 3 && text[..3] == DOTDOT + "/" {
      assert text == DOTDOT + "/" + text[3..];
      SplitConcat(DOTDOT, text[3..]);
      SplitSlashless(DOTDOT);
      SplitJoin(parts);
      assert Split(text)[0] == DOTDOT;
    }
    if text == DOTDOT {
      SplitSlashless(DOTDOT);
      SplitJoin(parts);
    }
    if parts[0] == DOTDOT && |parts| > 1 {
      assert text == DOTDOT + "/" + JoinSlash(parts[1..]);
    }
  }

  lemma NormalizeByComponents(path: string)
    requires path != ""
    ensures NormalizeRelative(path).Ok? <==> !IsAbs(path) && AllNames(Components(path))
    ensures NormalizeRelative(path).Ok? ==> NormalizeRelative(path).value == Render(false, Components(path))
  {
    var parts := Components(path);
    ComponentsCanonical(path);
    ComponentsOfRender(IsAbs(path), parts);
    ComponentsOfRender(false, []);
    if !IsAbs(path) && parts != [] {
      EscapeTest(parts);
      if Clean(path) == DOT {
        RenderInjective(false, parts, []);
      }
      if parts[0] != DOTDOT {
        assert forall i | 0 <= i < |parts| :: IsName(parts[i]);
      } else {
        assert !IsName(parts[0]);
      }
    }
  }

  /**
   * Accepted exactly when non-empty, relative, and never climbing above its start: in no prefix do the `..` outnumber
   * the ordinary names.
   */
  lemma NormalizeAccepts(path: string)
    ensures NormalizeRelative(path).Ok? <==> path != "" && !IsAbs(path) && StaysInside(0, Split(path))
  {
    if path != "" {
      NormalizeByComponents(path);
      if !IsAbs(path) {
        CleanStaysInside([], Split(path));
      }
    }
  }

  /** What is refused is told why: nothing given, an absolute path, or one that leaves the root. */
  lemma NormalizeSays(path: string)
    ensures NormalizeRelative(path).Ok? <==> Inside(path)
    ensures NormalizeRelative(path).Err? ==>
              ResponseFromError(Some(NormalizeRelative(path).error)) == PathComplaint(path)
  {
    NormalizeAccepts(path);
    if path != "" {
      ComponentsCanonical(path);
      CleanIdempotent(path);
    }
  }

  /** What is accepted comes out relative, without `..`, as a fixed point, and naming the same place. */
  lemma NormalizeMeaning(path: string)
    requires NormalizeRelative(path).Ok?
    ensures !IsAbs(NormalizeRelative(path).value) && AllNames(Components(NormalizeRelative(path).value))
    ensures NormalizeRelative(NormalizeRelative(path).value) == NormalizeRelative(path)
    ensures forall dir :: Follow(dir, Split(path)) == dir + Components(NormalizeRelative(path).value)
  {
    var clean := NormalizeRelative(path).value;
    NormalizeByComponents(path);
    ComponentsCanonical(path);
    ComponentsOfRender(false, Components(path));
    NormalizeAccepts(path);
    CleanStaysInside([], Split(path));
    NotEmptyRender(Components(path));
    NormalizeByComponents(clean);
    forall dir: seq<string>
      ensures Follow(dir, Split(path)) == dir + Components(clean)
    {
      assert dir + [] == dir;
    }
  }

  lemma NotEmptyRender(parts: seq<string>)
    requires Canonical(false, parts)
    ensures Render(false, parts) != ""
  {
    if parts != [] {
      JoinStart(parts);
    }
  }

  /** The two texts lead to one place from every directory. */
  ghost predicate SamePlace(a: string, b: string) {
    forall dir :: Follow(dir, Split(a)) == Follow(dir, Split(b))
  }

  /** Two accepted spellings are normalised to one text exactly when they name one place. */
  lemma NormalizeDecidesSamePlace(a: string, b: string)
    requires NormalizeRelative(a).Ok? && NormalizeRelative(b).Ok?
    ensures NormalizeRelative(a) == NormalizeRelative(b) <==> SamePlace(a, b)
  {
    NormalizeMeaning(a);
    NormalizeMeaning(b);
    var va, vb := NormalizeRelative(a).value, NormalizeRelative(b).value;
    assert Follow([], Split(a)) == [] + Components(va) == Components(va);
    assert Follow([], Split(b)) == [] + Components(vb) == Components(vb);
    NormalizeByComponents(a);
    NormalizeByComponents(b);
    ComponentsCanonical(a);
    ComponentsCanonical(b);
    ComponentsOfRender(false, Components(a));
    ComponentsOfRender(false, Components(b));
    if va == vb {
      forall dir ensures Follow(dir, Split(a)) == Follow(dir, Split(b)) {
        assert Follow(dir, Split(a)) == dir + Components(va);
      }
    }
  }

  /** The absolute place a guest argument names, following it from the working directory without cleaning anything. */
  function GuestPlace(cwd: string, arg: string): seq<string> {
    if IsAbs(arg) then Follow([], Split(arg)) else Follow(Follow([], Split(cwd)), Split(arg))
  }

  lemma AbsComponents(path: string)
    requires IsAbs(path)
    ensures Components(path) == Follow([], Split(path)) && AllNames(Components(path))
  {
    CleanFollows([], Split(path));
  }

  lemma GuestArgumentPlace(cwd: string, arg: string)
    requires arg != "" && IsAbs(cwd)
    ensures IsAbs(GuestArgument(cwd, arg)) && Components(GuestArgument(cwd, arg)) == GuestPlace(cwd, arg)
    ensures AllNames(GuestPlace(cwd, arg))
  {
    if IsAbs(arg) {
      AbsComponents(arg);
    } else {
      var joined := cwd + "/" + arg;
      CleanIdempotent(joined);
      AbsComponents(joined);
      SplitConcat(cwd, arg);
      FollowConcat([], Split(cwd), Split(arg));
    }
  }

  lemma RelIsPrefixTest(base: seq<string>, target: seq<string>)
    requires AllNames(base) && AllNames(target)
    ensures Canonical(false, RelParts(base, target))
    ensures AllNames(RelParts(base, target)) <==> base <= target
    ensures base <= target ==> base + RelParts(base, target) == target
  {
    var n := CommonPrefix(base, target);
    var rel := RelParts(base, target);
    if base <= target {
      assert n == |base|;
      assert rel == target[n..];
    } else {
      assert base[..|base|] == base;
      assert rel[0] == DOTDOT;
    }
  }

  /** `NormalizeRoot` gives an absolute clean path. */
  lemma NormalizeRootPlace(processDir: string, root: string)
    requires root != "" && IsAbs(processDir)
    ensures NormalizeRoot(processDir, root).Ok?
    ensures IsAbs(NormalizeRoot(processDir, root).value)
    ensures Components(NormalizeRoot(processDir, root).value) == GuestPlace(processDir, root)
    ensures AllNames(GuestPlace(processDir, root))
  {
    GuestArgumentPlace(processDir, root);
    CleanIdempotent(root);
  }

  /**
   * Guest-to-host correspondence. An argument is accepted exactly when the place it names is the mount root or below
   * it; the mount root followed by the result is that place again; and the host's own normalisation leaves the result
   * alone. So guest `mount/p` is host `share/p`, for every spelling of the argument.
   */
  lemma GuestCorrespondence(processDir: string, mountRoot: string, cwd: string, arg: string)
    requires IsAbs(processDir) && IsAbs(cwd) && mountRoot != ""
    ensures ResolveGuestArgument(processDir, mountRoot, cwd, arg).Ok? <==>
              arg != "" && GuestPlace(processDir, mountRoot) <= GuestPlace(cwd, arg)
    ensures ResolveGuestArgument(processDir, mountRoot, cwd, arg).Ok? ==>
              var rel := ResolveGuestArgument(processDir, mountRoot, cwd, arg).value;
              && GuestPlace(processDir, mountRoot) + Components(rel) == GuestPlace(cwd, arg)
              && NormalizeRelative(rel) == Ok(rel)
  {
    if arg != "" {
      NormalizeRootPlace(processDir, mountRoot);
      GuestArgumentPlace(cwd, arg);
      CleanIdempotent(GuestArgument(cwd, arg));
      var mount, place := GuestPlace(processDir, mountRoot), GuestPlace(cwd, arg);
      var parts := RelParts(mount, place);
      RelIsPrefixTest(mount, place);
      ComponentsOfRender(false, parts);
      NotEmptyRender(parts);
      NormalizeByComponents(Render(false, parts));
      if AllNames(parts) {
        NormalizeMeaning(Render(false, parts));
      }
    }
  }

  /** What the guest says about an argument it does not make a path of the share of. */
  ghost function GuestComplaint(mountRoot: string, arg: string): Response {
    if arg == "" then FailureResponse(EInval, "path is required")
    else if mountRoot == "" then FailureResponse(EInval, "share root is required")
    else FailureResponse(EPerm, "path must stay within the guest mount root")
  }

  /** The argument names the mount root or something below it. */
  ghost predicate OnMount(processDir: string, mountRoot: string, cwd: string, arg: string) {
    arg != "" && mountRoot != "" && GuestPlace(processDir, mountRoot) <= GuestPlace(cwd, arg)
  }

  lemma GuestSays(processDir: string, mountRoot: string, cwd: string, arg: string)
    requires IsAbs(processDir) && IsAbs(cwd)
    ensures var r := ResolveGuestArgument(processDir, mountRoot, cwd, arg);
            && (r.Ok? <==> OnMount(processDir, mountRoot, cwd, arg))
            && (r.Err? ==> ResponseFromError(Some(r.error)) == GuestComplaint(mountRoot, arg))
  {
    if arg != "" && mountRoot != "" {
      GuestCorrespondence(processDir, mountRoot, cwd, arg);
      GuestArgumentPlace(cwd, arg);
      CleanIdempotent(GuestArgument(cwd, arg));
    }
  }

  /** A request is built exactly if both arguments are on the mount; the source is complained about first. */
  lemma RequestIsBuilt(processDir: string, mountRoot: string, authToken: string, cwd: string, srcArg: string,
                       dstArg: string, recursive: bool)
    requires IsAbs(processDir) && IsAbs(cwd)
    ensures var r := BuildRequest(processDir, mountRoot, authToken, cwd, srcArg, dstArg, recursive);
            && (r.Ok? <==>
                  OnMount(processDir, mountRoot, cwd, srcArg) && OnMount(processDir, mountRoot, cwd, dstArg))
            && (r.Err? ==>
                  ResponseFromError(Some(r.error))
                  == GuestComplaint(mountRoot,
                                    if OnMount(processDir, mountRoot, cwd, srcArg) then dstArg else srcArg))
            && (r.Ok? ==> r.value.op == "reflink" && r.value.version == if authToken == "" then 1 else 2)
  {
    GuestSays(processDir, mountRoot, cwd, srcArg);
    GuestSays(processDir, mountRoot, cwd, dstArg);
  }

  /**
   * What the guest builds, the host accepts exactly when the two arguments name different places; and the request
   * then names those places.
   */
  lemma BuiltRequestAccepted(processDir: string, mountRoot: string, authToken: string, cwd: string,
                             srcArg: string, dstArg: string, recursive: bool)
    requires IsAbs(processDir) && IsAbs(cwd) && mountRoot != ""
    requires BuildRequest(processDir, mountRoot, authToken, cwd, srcArg, dstArg, recursive).Ok?
    ensures var req := BuildRequest(processDir, mountRoot, authToken, cwd, srcArg, dstArg, recursive).value;
            && (ValidRequest(req).None? <==> GuestPlace(cwd, srcArg) != GuestPlace(cwd, dstArg))
            && GuestPlace(processDir, mountRoot) + Components(req.src) == GuestPlace(cwd, srcArg)
            && GuestPlace(processDir, mountRoot) + Components(req.dst) == GuestPlace(cwd, dstArg)
            && req.recursive == recursive && req.token == authToken
  {
    var req := BuildRequest(processDir, mountRoot, authToken, cwd, srcArg, dstArg, recursive).value;
    GuestCorrespondence(processDir, mountRoot, cwd, srcArg);
    GuestCorrespondence(processDir, mountRoot, cwd, dstArg);
    NormalizeMeaning(req.src);
    NormalizeMeaning(req.dst);
    NormalizeByComponents(req.src);
    NormalizeByComponents(req.dst);
    if GuestPlace(cwd, srcArg) == GuestPlace(cwd, dstArg) {
      var mount := GuestPlace(processDir, mountRoot);
      assert Components(req.src) == (mount + Components(req.src))[|mount|..];
      assert Components(req.dst) == (mount + Components(req.dst))[|mount|..];
    }
  }
}
