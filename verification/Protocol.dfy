/**
 * internal/protocol/protocol.go: requests, responses, and the classification of Go error trees.
 */
module Protocol {
  import opened Wrappers

  const VERSION1 := 1
  const VERSION2 := 2
  const OP_REFLINK := "reflink"

  datatype Code = ENoEnt | EExist | EOpNotSupp | EInval | EPerm

  datatype Request = Request(version: int, op: string, recursive: bool, src: string, dst: string, token: string)

  datatype ErrorDetail = ErrorDetail(code: Code, message: string)

  datatype Response = Response(ok: bool, error: Option<ErrorDetail>)

  /** Kernel error numbers the code tells apart (ENOTSUP and EOPNOTSUPP are one number on Linux). */
  datatype Errno =
    | ENOENT | ENOTDIR | EEXIST | ENOTEMPTY | EPERM | EACCES | EOPNOTSUPP | EXDEV | EISDIR | EINVAL | ELOOP | EIO

  /** What `errors.Is` can compare a leaf with. */
  datatype Cause =
    | Sys(errno: Errno)
    | ErrNotExist | ErrExist | ErrPermission
    | ErrReflinkUnsupported | ErrReflinkFailed
    | Opaque

  /**
   * A Go error: a leaf, a `%w` wrapper with text on either side, an `errors.Join`, or a `CodedError` with an optional
   * cause.
   */
  datatype Error =
    | Leaf(cause: Cause, text: string)
    | Wrapped(prefix: string, inner: Error, suffix: string)
    | Joined(errs: seq<Error>)
    | Coded(code: Code, message: string, under: Option<Error>)

  function NewError(code: Code, message: string): Error { Coded(code, message, None) }

  function WrapError(code: Code, message: string, err: Error): Error { Coded(code, message, Some(err)) }

  /** The text `Error()` returns. */
  function Text(e: Error): string
    decreases e, 1
  {
    match e
    case Leaf(_, text) => text
    case Wrapped(prefix, inner, suffix) => prefix + Text(inner) + suffix
    case Joined(errs) => JoinedText(errs)
    case Coded(_, message, _) => message
  }

  function JoinedText(errs: seq<Error>): string
    decreases errs, 0
  {
    if errs == [] then ""
    else if |errs| == 1 then Text(errs[0])
    else Text(errs[0]) + "\n" + JoinedText(errs[1..])
  }

  /** `syscall.Errno.Is` also answers for the `fs` sentinels. */
  predicate CauseIs(c: Cause, target: Cause) {
    || c == target
    || (c == Sys(ENOENT) && target == ErrNotExist)
    || (c in {Sys(EEXIST), Sys(ENOTEMPTY)} && target == ErrExist)
    || (c in {Sys(EPERM), Sys(EACCES)} && target == ErrPermission)
  }

  /** `errors.Is`: some leaf of the tree answers for the target. */
  predicate Is(e: Error, target: Cause) {
    match e
    case Leaf(c, _) => CauseIs(c, target)
    case Wrapped(_, inner, _) => Is(inner, target)
    case Joined(errs) => exists i | 0 <= i < |errs| :: Is(errs[i], target)
    case Coded(_, _, under) => under.Some? && Is(under.value, target)
  }

  /** `errors.As` with a `*CodedError`: the first one in depth-first order. */
  function AsCoded(e: Error): Option<ErrorDetail>
    decreases e, 1
  {
    match e
    case Leaf(_, _) => None
    case Wrapped(_, inner, _) => AsCoded(inner)
    case Joined(errs) => FirstCoded(errs)
    case Coded(code, message, _) => Some(ErrorDetail(code, message))
  }

  function FirstCoded(errs: seq<Error>): Option<ErrorDetail>
    decreases errs, 0
  {
    if errs == [] then None
    else
      var first := AsCoded(errs[0]);
      if first.Some? then first else FirstCoded(errs[1..])
  }

  function CodeFromError(e: Error): Code {
    if Is(e, ErrNotExist) || Is(e, Sys(ENOENT)) || Is(e, Sys(ENOTDIR)) then ENoEnt
    else if Is(e, ErrExist) || Is(e, Sys(EEXIST)) then EExist
    else if Is(e, ErrPermission) || Is(e, Sys(EPERM)) || Is(e, Sys(EACCES)) then EPerm
    else if Is(e, ErrReflinkUnsupported) || Is(e, ErrReflinkFailed) || Is(e, Sys(EOPNOTSUPP)) || Is(e, Sys(EXDEV)) then
      EOpNotSupp
    else EInval
  }

  function MessageFromError(e: Error): string {
    var coded := AsCoded(e);
    if coded.Some? then coded.value.message
    else
      match CodeFromError(e)
      case ENoEnt => "source not found"
      case EExist => "destination already exists"
      case EOpNotSupp => "reflink is not supported for this source and destination"
      case EPerm => "permission denied"
      case EInval => Text(e)
  }

  function SuccessResponse(): Response { Response(true, None) }

  function FailureResponse(code: Code, message: string): Response {
    Response(false, Some(ErrorDetail(code, message)))
  }

  function ResponseFromError(err: Option<Error>): (r: Response)
    ensures r.ok <==> err.None?
    ensures r.error.Some? <==> err.Some?
  {
    if err.None? then SuccessResponse()
    else
      var coded := AsCoded(err.value);
      if coded.Some? then FailureResponse(coded.value.code, coded.value.message)
      else FailureResponse(CodeFromError(err.value), MessageFromError(err.value))
  }

  /** `%d`. */
  function Decimal(n: int): string
    decreases if n < 0 then 1 - n else n
  {
    if n < 0 then "-" + Decimal(-n)
    else if n < 10 then ["0123456789"[n]]
    else Decimal(n / 10) + ["0123456789"[n % 10]]
  }

  /** What a decimal numeral, perhaps with a sign, stands for. */
  function Number(s: string): int {
    if s == "" then 0
    else if s[0] == '-' then -Number(s[1..])
    else 10 * Number(s[..|s| - 1]) + (s[|s| - 1] as int - '0' as int)
  }

  lemma DigitMeans(d: nat)
    requires d < 10
    ensures "0123456789"[d] as int == '0' as int + d && "0123456789"[d] != '-'
  {
  }

  lemma OneMoreDigit(s: string, c: char)
    requires s != "" && s[0] != '-'
    ensures Number(s + [c]) == 10 * Number(s) + (c as int - '0' as int)
  {
    assert (s + [c])[..|s|] == s;
  }

  lemma {:induction false} NaturalMeans(n: nat)
    ensures Number(Decimal(n)) == n && Decimal(n) != "" && Decimal(n)[0] != '-'
  {
    DigitMeans(n % 10);
    if n < 10 {
      assert [Decimal(n)[0]][..0] == "";
    } else {
      NaturalMeans(n / 10);
      OneMoreDigit(Decimal(n / 10), "0123456789"[n % 10]);
    }
  }

  /** The numeral of a number stands for it. */
  lemma DecimalMeans(n: int)
    ensures Number(Decimal(n)) == n
  {
    if n >= 0 {
      NaturalMeans(n);
    } else {
      NaturalMeans(-n);
      assert ("-" + Decimal(-n))[1..] == Decimal(-n);
    }
  }

  /** The requests the protocol knows: a reflink between two different texts, with a token exactly in version 2. */
  predicate WellFormed(r: Request) {
    && r.op == "reflink" && (r.version == 1 || r.version == 2) && (r.version == 2 <==> r.token != "")
    && r.src != "" && r.dst != "" && r.src != r.dst
  }

  /** What is wrong with a request that is not well-formed; an earlier complaint goes before a later one. */
  function Complaint(r: Request): string {
    if r.version < 1 || r.version > 2 then "unsupported protocol version: " + Decimal(r.version)
    else if r.op != "reflink" then "unsupported operation: " + r.op
    else if r.version == 1 && r.token != "" then "authentication token requires protocol version 2"
    else if r.version == 2 && r.token == "" then "authentication token is required"
    else if r.src == "" then "source path is required"
    else if r.dst == "" then "destination path is required"
    else "source and destination must differ"
  }

  /** `Request.Validate`: None is acceptance. */
  function ValidateRequest(r: Request): (refused: Option<Error>)
    ensures refused.None? <==> WellFormed(r)
    ensures refused.Some? ==> ResponseFromError(refused) == FailureResponse(EInval, Complaint(r))
  {
    if r.version != VERSION1 && r.version != VERSION2 then
        Some(NewError(EInval, "unsupported protocol version: " + Decimal(r.version)))
    else if r.op != OP_REFLINK then Some(NewError(EInval, "unsupported operation: " + r.op))
    else if r.version == VERSION1 && r.token != "" then
      Some(NewError(EInval, "authentication token requires protocol version 2"))
    else if r.version == VERSION2 && r.token == "" then Some(NewError(EInval, "authentication token is required"))
    else if r.src == "" then Some(NewError(EInval, "source path is required"))
    else if r.dst == "" then Some(NewError(EInval, "destination path is required"))
    else if r.src == r.dst then Some(NewError(EInval, "source and destination must differ"))
    else None
  }

  /** What a refused request is told: `text`, with EINVAL. */
  predicate Complains(r: Request, text: string) {
    ResponseFromError(ValidateRequest(r)) == FailureResponse(EInval, text)
  }

  /** Each complaint is made if no earlier one applies. */
  lemma FirstComplaint(r: Request)
    ensures !(r.version == 1 || r.version == 2) ==> Complains(r, "unsupported protocol version: " + Decimal(r.version))
    ensures (r.version == 1 || r.version == 2) && r.op != "reflink" ==> Complains(r, "unsupported operation: " + r.op)
    ensures r.version == 1 && r.op == "reflink" && r.token != "" ==>
              Complains(r, "authentication token requires protocol version 2")
    ensures r.version == 2 && r.op == "reflink" && r.token == "" ==>
              Complains(r, "authentication token is required")
    ensures WellFormed(r.(src := "a", dst := "b")) ==>
              && (r.src == "" ==> Complains(r, "source path is required"))
              && (r.src != "" && r.dst == "" ==> Complains(r, "destination path is required"))
              && (r.src != "" && r.src == r.dst ==> Complains(r, "source and destination must differ"))
  {
  }

  // ---------------------------------------------------------------------------------------------
  // Error numbers and what they are answered
  // ---------------------------------------------------------------------------------------------

  /** The code an error number is answered with. */
  function ErrnoCode(e: Errno): Code {
    match e
    case ENOENT | ENOTDIR => ENoEnt
    case EEXIST | ENOTEMPTY => EExist
    case EPERM | EACCES => EPerm
    case EOPNOTSUPP | EXDEV => EOpNotSupp
    case EISDIR | EINVAL | ELOOP | EIO => EInval
  }

  /**
   * `err` is answered as the failure of a call with this error number: its code, and the one text that goes with it.
   */
  ghost predicate Answers(err: Error, e: Errno) {
    var said := ResponseFromError(Some(err)).error.value;
    match ErrnoCode(e)
    case ENoEnt => said == ErrorDetail(ENoEnt, "source not found")
    case EExist => said == ErrorDetail(EExist, "destination already exists")
    case EPerm => said == ErrorDetail(EPerm, "permission denied")
    case EOpNotSupp => said == ErrorDetail(EOpNotSupp, "reflink is not supported for this source and destination")
    case EInval => said.code == EInval
  }

  lemma LeafClass(e: Errno, text: string)
    ensures CodeFromError(Leaf(Sys(e), text)) == ErrnoCode(e)
  {
    CodeIsStrongestCause(Leaf(Sys(e), text));
    assert Causes(Leaf(Sys(e), text)) == [Sys(e)] && [Sys(e)][1..] == [];
  }

  lemma LeafResponse(e: Errno, text: string)
    ensures var code := ErrnoCode(e);
            ResponseFromError(Some(Leaf(Sys(e), text)))
            == FailureResponse(code, match code
                                     case ENoEnt => "source not found"
                                     case EExist => "destination already exists"
                                     case EOpNotSupp => "reflink is not supported for this source and destination"
                                     case EPerm => "permission denied"
                                     case EInval => text)
  {
    hide CodeFromError;
    LeafClass(e, text);
    assert AsCoded(Leaf(Sys(e), text)).None?;
  }

  /** An error with nothing but an error number in it is answered by that number; others by their text. */
  lemma LeafAnswer(e: Errno, text: string)
    ensures Answers(Leaf(Sys(e), text), e)
    ensures ErrnoCode(e) == EInval ==>
              ResponseFromError(Some(Leaf(Sys(e), text))) == FailureResponse(EInval, text)
  {
    hide ResponseFromError;
    LeafResponse(e, text);
  }

  // ---------------------------------------------------------------------------------------------
  // Classification as an algebra on trees
  // ---------------------------------------------------------------------------------------------

  /** Priority of a single cause; 0 is the strongest. */
  function CauseRank(c: Cause): nat {
    match c
    case Sys(ENOENT) | Sys(ENOTDIR) | ErrNotExist => 0
    case Sys(EEXIST) | Sys(ENOTEMPTY) | ErrExist => 1
    case Sys(EPERM) | Sys(EACCES) | ErrPermission => 2
    case Sys(EOPNOTSUPP) | Sys(EXDEV) | ErrReflinkUnsupported | ErrReflinkFailed => 3
    case _ => 4
  }

  function RankCode(rank: nat): Code {
    if rank == 0 then ENoEnt
    else if rank == 1 then EExist
    else if rank == 2 then EPerm
    else if rank == 3 then EOpNotSupp
    else EInval
  }

  function CodeRank(code: Code): nat {
    match code
    case ENoEnt => 0
    case EExist => 1
    case EPerm => 2
    case EOpNotSupp => 3
    case EInval => 4
  }

  /** All causes at the leaves of a tree, in depth-first order. */
  ghost function Causes(e: Error): seq<Cause>
    decreases e, 1
  {
    match e
    case Leaf(c, _) => [c]
    case Wrapped(_, inner, _) => Causes(inner)
    case Joined(errs) => AllCauses(errs)
    case Coded(_, _, under) => if under.Some? then Causes(under.value) else []
  }

  ghost function AllCauses(errs: seq<Error>): seq<Cause>
    decreases errs, 0
  {
    if errs == [] then [] else Causes(errs[0]) + AllCauses(errs[1..])
  }

  lemma {:induction false} IsMeansSomeCause(e: Error, target: Cause)
    ensures Is(e, target) <==> exists c :: c in Causes(e) && CauseIs(c, target)
    decreases e, 1
  {
    match e
    case Leaf(c, _) =>
    case Wrapped(_, inner, _) => IsMeansSomeCause(inner, target);
    case Joined(errs) => SomeIsMeansSomeCause(errs, target);
    case Coded(_, _, under) => if under.Some? { IsMeansSomeCause(under.value, target); }
  }

  lemma {:induction false} SomeIsMeansSomeCause(errs: seq<Error>, target: Cause)
    ensures (exists i | 0 <= i < |errs| :: Is(errs[i], target))
            <==> exists c :: c in AllCauses(errs) && CauseIs(c, target)
    decreases errs, 0
  {
    if errs != [] {
      IsMeansSomeCause(errs[0], target);
      SomeIsMeansSomeCause(errs[1..], target);
      if i :| 0 <= i < |errs| && Is(errs[i], target) {
        if i > 0 { assert Is(errs[1..][i - 1], target); }
      }
    }
  }

  /** The strongest rank among some causes; 4 when there are none. */
  function Strongest(cs: seq<Cause>): (rank: nat)
    ensures rank <= 4
    ensures forall c :: c in cs ==> rank <= CauseRank(c)
    ensures rank < 4 ==> HasRank(cs, rank)
  {
    if cs == [] then 4
    else
      var rest := Strongest(cs[1..]);
      assert cs[0] in cs;
      if CauseRank(cs[0]) < rest then CauseRank(cs[0]) else rest
  }

  /** A case of the switch, a disjunction of `Is`, asks whether the tree holds a cause of that case's rank. */
  lemma {:induction false} TargetsOfRank(e: Error, targets: set<Cause>, rank: nat)
    requires forall c: Cause :: CauseRank(c) == rank <==> exists t :: t in targets && CauseIs(c, t)
    ensures (exists t :: t in targets && Is(e, t)) <==> HasRank(Causes(e), rank)
  {
    forall t | t in targets {
      IsMeansSomeCause(e, t);
    }
    if HasRank(Causes(e), rank) {
      var c :| c in Causes(e) && CauseRank(c) == rank;
      var t :| t in targets && CauseIs(c, t);
      assert Is(e, t);
    }
  }

  lemma {:induction false} NotFoundTargets(e: Error)
    ensures (Is(e, ErrNotExist) || Is(e, Sys(ENOENT)) || Is(e, Sys(ENOTDIR))) <==> HasRank(Causes(e), 0)
  {
    TargetsOfRank(e, {ErrNotExist, Sys(ENOENT), Sys(ENOTDIR)}, 0);
  }

  lemma {:induction false} ExistTargets(e: Error)
    ensures (Is(e, ErrExist) || Is(e, Sys(EEXIST))) <==> HasRank(Causes(e), 1)
  {
    TargetsOfRank(e, {ErrExist, Sys(EEXIST)}, 1);
  }

  lemma {:induction false} PermissionTargets(e: Error)
    ensures (Is(e, ErrPermission) || Is(e, Sys(EPERM)) || Is(e, Sys(EACCES))) <==> HasRank(Causes(e), 2)
  {
    TargetsOfRank(e, {ErrPermission, Sys(EPERM), Sys(EACCES)}, 2);
  }

  lemma {:induction false} UnsupportedTargets(e: Error)
    ensures (Is(e, ErrReflinkUnsupported) || Is(e, ErrReflinkFailed) || Is(e, Sys(EOPNOTSUPP)) || Is(e, Sys(EXDEV)))
       <==> HasRank(Causes(e), 3)
  {
    TargetsOfRank(e, {ErrReflinkUnsupported, ErrReflinkFailed, Sys(EOPNOTSUPP), Sys(EXDEV)}, 3);
  }

  ghost predicate HasRank(cs: seq<Cause>, rank: nat) {
    exists c :: c in cs && CauseRank(c) == rank
  }

  /** The code of any error tree is decided by its strongest cause, wherever that cause sits. */
  lemma {:induction false} CodeIsStrongestCause(e: Error)
    ensures CodeFromError(e) == RankCode(Strongest(Causes(e)))
  {
    NotFoundTargets(e);
    ExistTargets(e);
    PermissionTargets(e);
    UnsupportedTargets(e);
  }

  lemma {:induction false} StrongestOfConcat(a: seq<Cause>, b: seq<Cause>)
    ensures Strongest(a + b) == if Strongest(a) <= Strongest(b) then Strongest(a) else Strongest(b)
  {
    if a == [] {
      assert a + b == b;
    } else {
      assert (a + b)[1..] == a[1..] + b;
      StrongestOfConcat(a[1..], b);
    }
  }

  lemma CausesOfPair(a: Error, b: Error)
    ensures Causes(Joined([a, b])) == Causes(a) + Causes(b)
  {
    assert [a, b][1..] == [b];
    assert AllCauses([b]) == Causes(b) + AllCauses([]);
  }

  /** Joining two errors takes the stronger of their two classes. */
  lemma {:induction false} JoinTakesStrongerClass(a: Error, b: Error)
    ensures CodeFromError(Joined([a, b]))
         == if CodeRank(CodeFromError(a)) <= CodeRank(CodeFromError(b)) then CodeFromError(a) else CodeFromError(b)
  {
    CodeIsStrongestCause(a);
    CodeIsStrongestCause(b);
    CodeIsStrongestCause(Joined([a, b]));
    CausesOfPair(a, b);
    StrongestOfConcat(Causes(a), Causes(b));
  }

  /** A coded error anywhere on the left of a join decides the whole response; otherwise one on the right does. */
  lemma {:induction false} JoinedResponse(a: Error, b: Error)
    ensures AsCoded(a).Some? ==> ResponseFromError(Some(Joined([a, b]))) == ResponseFromError(Some(a))
    ensures AsCoded(a).None? && AsCoded(b).Some? ==>
              ResponseFromError(Some(Joined([a, b]))) == ResponseFromError(Some(b))
    ensures AsCoded(a).None? && AsCoded(b).None? ==>
              ResponseFromError(Some(Joined([a, b]))).error.value.code
              == if CodeRank(CodeFromError(a)) <= CodeRank(CodeFromError(b)) then CodeFromError(a) else CodeFromError(b)
  {
    assert [a, b][1..] == [b];
    assert AsCoded(Joined([a, b])) == FirstCoded([a, b]);
    assert FirstCoded([b]) == if AsCoded(b).Some? then AsCoded(b) else FirstCoded([]);
    JoinTakesStrongerClass(a, b);
  }
}
