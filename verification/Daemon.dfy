/**
 * The daemon around the service: which requests are carried out and by whom (cmd/vreflinkd/runtime.go), and the single
 * exchange on a connection (internal/server/server.go).
 */
module Daemon {
  import opened Wrappers
  import opened Protocol
  import opened Framing
  import opened Auth
  import opened FileTree
  import opened Kernels
  import opened Resolve
  import opened Services

  /** Where requests are carried out. */
  datatype Share = Share(processDir: string, root: string)

  /** JSON for the two kinds of messages. */
  datatype Wire = Wire(request: Codec<Request>, response: Codec<Response>)

  /** Whatever is sent is read back unchanged (the case for strings that are valid UTF-8). */
  ghost predicate Exact<V>(codec: Codec<V>, value: V) {
    codec.marshal(value).Ok? ==> DecodeAll(codec, codec.marshal(value).value) == Ok(value)
  }

  /** What one write can have sent: nothing, or the beginning of the value's frame. */
  ghost predicate SentBy<V>(codec: Codec<V>, value: V, bytes: Bytes) {
    if Unsendable(codec, value).Some? then bytes == [] else bytes <= Frame(codec.marshal(value).value)
  }

  /** The value arrives unchanged or not at all: it arrives exactly when its whole frame was sent. */
  lemma ArrivesOrNot<V>(codec: Codec<V>, value: V, bytes: Bytes)
    requires Exact(codec, value) && SentBy(codec, value, bytes)
    ensures var parsed := ParseFrame(codec, MAX_PAYLOAD_SIZE, bytes, None).value;
            && (parsed.Ok? ==> parsed.value == value)
            && (parsed.Ok? <==> Unsendable(codec, value).None? && bytes == Frame(codec.marshal(value).value))
  {
    if Unsendable(codec, value).None? {
      var payload := codec.marshal(value).value;
      if |bytes| < |Frame(payload)| {
        TruncatedFrame(codec, MAX_PAYLOAD_SIZE, payload, |bytes|);
        assert bytes == Frame(payload)[..|bytes|];
      } else {
        FrameRoundTrip(codec, MAX_PAYLOAD_SIZE, value, [], None);
        assert bytes + [] == bytes == Frame(payload);
      }
    }
  }

  // ---------------------------------------------------------------------------------------------
  // The worker process
  // ---------------------------------------------------------------------------------------------

  function InvalidRequest(e: Error): Error { WrapError(EInval, "invalid request", e) }

  /**
   * Reads one request and answers it. `direct` is what the service answered, None if it was never asked; `reply` is the
   * response sent.
   */
  method RunWorker(k: Kernel, share: Share, wire: Wire, input: Conn, output: Conn)
    returns (err: Option<Error>, ghost direct: Option<Option<Error>>, ghost reply: Response)
    requires k.Valid() && RootIsPlain(k.nodes, share.processDir, share.root)
    requires var parsed := ParseFrame(wire.request, MAX_PAYLOAD_SIZE, Flat(input.incoming), input.broken).value;
             parsed.Ok? ==> EndsIfStarted(k.nodes, share.processDir, share.root, parsed.value)
    modifies k`nodes, k`mine, k`clock, input`incoming, output`outgoing, output`room
    ensures k.Valid()
    ensures var parsed := ParseFrame(wire.request, MAX_PAYLOAD_SIZE, old(Flat(input.incoming)), input.broken).value;
            && (parsed.Err? ==>
                  direct == None && k.nodes == old(k.nodes) && reply == FailureResponse(EInval, "invalid request"))
            && (parsed.Ok? ==>
                  && direct.Some? && reply == ResponseFromError(direct.value)
                  && Executed(old(k.nodes), k.nodes, CallsSince(k, old(k.clock), old(k.Admits())), share.processDir,
                      share.root, parsed.value, direct.value))
    ensures Unsendable(wire.response, reply).Some? ==> output.outgoing == old(output.outgoing)
    ensures Unsendable(wire.response, reply).None? ==>
              var frame := Frame(wire.response.marshal(reply).value);
              output.outgoing == old(output.outgoing) + frame[..old(output.Sent(frame))]
  {
    label start:
    var req := Read(input, wire.request);
    if req.Err? {
      direct, reply := None, ResponseFromError(Some(InvalidRequest(req.error)));
      err := Write(output, wire.response, ResponseFromError(Some(InvalidRequest(req.error))));
      return;
    }
    var served := Execute(k, share.processDir, share.root, req.value);
    direct, reply := Some(served), ResponseFromError(served);
    err := Write(output, wire.response, ResponseFromError(served));
  }

  /** How a child process fares; and how the pipes cut up what goes through them. */
  datatype Process = Process(pipeError: Option<Error>, startError: Option<Error>, closeError: Option<Error>,
                             stdinRoom: Option<nat>, stdoutRoom: Option<nat>, brokenPipe: Error,
                             runs: bool, waitError: Option<Error>, stderr: string, cut: Bytes -> seq<Bytes>)
  {
    /** It starts, takes its input, and ends well. */
    predicate Normal() {
      && pipeError.None? && startError.None? && closeError.None? && stdinRoom.None? && stdoutRoom.None?
      && runs && waitError.None?
    }

    ghost predicate Valid() {
      forall b :: Flat(cut(b)) == b
    }

    function Stderr(): string { " (" + stderr + ")" }
  }

  /** What the parent makes of the child's response. */
  function Returned(resp: Response): Option<Error> {
    if resp.ok then None
    else if resp.error.None? then Some(Leaf(Opaque, "worker returned an unknown error"))
    else Some(NewError(resp.error.value.code, resp.error.value.message))
  }

  /** Code and message make the trip, so the response the parent sends is the one the child would have sent. */
  lemma {:induction false} ProxyIsTransparent(err: Option<Error>)
    ensures ResponseFromError(Returned(ResponseFromError(err))) == ResponseFromError(err)
    ensures Returned(ResponseFromError(err)).None? <==> err.None?
  {
    if err.Some? && AsCoded(err.value).None? {
      assert AsCoded(Returned(ResponseFromError(err)).value)
          == Some(ErrorDetail(CodeFromError(err.value), MessageFromError(err.value)));
    }
  }

  /** What the parent reports when the worker failed: the exit status if it is bad, else its own error. */
  function WorkerFailure(what: string, own: Error, p: Process): Error {
    match p.waitError
    case Some(e) => Wrapped(what, e, p.Stderr())
    case None => Wrapped(what, own, "")
  }

  /** `err` wraps `cause`: it is answered with the same response if that is coded, and the same class in any case. */
  ghost predicate SpeaksFor(err: Option<Error>, cause: Error) {
    && err.Some?
    && ResponseFromError(err).error.value.code == ResponseFromError(Some(cause)).error.value.code
    && (AsCoded(cause).Some? ==> ResponseFromError(err) == ResponseFromError(Some(cause)))
  }

  lemma {:induction false} WrappingSpeaksFor(prefix: string, cause: Error, suffix: string)
    ensures SpeaksFor(Some(Wrapped(prefix, cause, suffix)), cause)
  {
    var err := Wrapped(prefix, cause, suffix);
    assert AsCoded(err) == AsCoded(cause);
    assert CodeFromError(err) == CodeFromError(cause);
  }

  /** What the child answers: what the service told it, or that it could make nothing of its input. */
  ghost function Reply(direct: Option<Option<Error>>): Response {
    if direct.Some? then ResponseFromError(direct.value) else FailureResponse(EInval, "invalid request")
  }

  lemma FailureSpeaksFor(what: string, own: Error, p: Process)
    ensures SpeaksFor(Some(WorkerFailure(what, own, p)), if p.waitError.Some? then p.waitError.value else own)
  {
    if p.waitError.Some? {
      WrappingSpeaksFor(what, p.waitError.value, p.Stderr());
    } else {
      WrappingSpeaksFor(what, own, "");
    }
  }

  /** The child's life, given what was sent to it. */
  method RunChild(k: Kernel, share: Share, wire: Wire, ghost req: Request, p: Process, sent: Bytes)
    returns (output: Bytes, ghost direct: Option<Option<Error>>)
    requires k.Valid() && RootIsPlain(k.nodes, share.processDir, share.root)
    requires EndsIfStarted(k.nodes, share.processDir, share.root, req)
    requires p.Valid() && Exact(wire.request, req) && SentBy(wire.request, req, sent)
    modifies k`nodes, k`mine, k`clock
    ensures k.Valid()
    ensures direct.None? ==> k.nodes == old(k.nodes)
    ensures direct.Some? ==>
              Executed(old(k.nodes), k.nodes, CallsSince(k, old(k.clock), old(k.Admits())), share.processDir,
                  share.root, req, direct.value)
    ensures direct.Some? <==>
              p.runs && Unsendable(wire.request, req).None? && sent == Frame(wire.request.marshal(req).value)
    ensures SentBy(wire.response, Reply(direct), output)
    ensures p.runs && p.stdoutRoom.None? && Unsendable(wire.response, Reply(direct)).None? ==>
              output == Frame(wire.response.marshal(Reply(direct)).value)
  {
    if !p.runs {
      return [], None;
    }
    var input := new Conn(p.cut(sent), Some(0), None, p.brokenPipe);
    var stdout := new Conn([], p.stdoutRoom, None, p.brokenPipe);
    ArrivesOrNot(wire.request, req, sent);
    var replyErr;
    ghost var reply;
    replyErr, direct, reply := RunWorker(k, share, wire, input, stdout);
    output := stdout.outgoing;
  }

  /**
   * The request is handed to a child that runs as `identity`, and its answer is handed back. A success is never made
   * up; and when the child fares well, the response is the one the service gave.
   */
  method CommandWorkerExecute(k: Kernel, share: Share, wire: Wire, daemon: Account, identity: Identity, req: Request,
                              p: Process)
    returns (err: Option<Error>, child: Account, ghost direct: Option<Option<Error>>)
    requires k.Valid() && RootIsPlain(k.nodes, share.processDir, share.root)
    requires EndsIfStarted(k.nodes, share.processDir, share.root, req)
    requires p.Valid() && Exact(wire.request, req) && (forall r: Response :: Exact(wire.response, r))
    requires forall g :: g in daemon.groups ==> 0 <= g < 0x1_0000_0000
    modifies k`nodes, k`mine, k`clock
    ensures k.Valid() && ActsAs(child, identity)
    ensures direct.None? ==> k.nodes == old(k.nodes)
    ensures direct.Some? ==>
              Executed(old(k.nodes), k.nodes, CallsSince(k, old(k.clock), old(k.Admits())), share.processDir,
                  share.root, req, direct.value)
    ensures err.None? ==> direct == Some(None)
    ensures p.Normal() && Unsendable(wire.request, req).None? ==>
              && direct.Some?
              && (Unsendable(wire.response, ResponseFromError(direct.value)).None? ==>
                    ResponseFromError(err) == ResponseFromError(direct.value))
    ensures p.pipeError.Some? ==> direct.None? && SpeaksFor(err, p.pipeError.value)
    ensures p.pipeError.None? && p.startError.Some? ==> direct.None? && SpeaksFor(err, p.startError.value)
    ensures p.pipeError.None? && p.startError.None? && p.waitError.Some? ==> SpeaksFor(err, p.waitError.value)
  {
    hide Executed;
    child := WorkerAccount(daemon, identity);
    if p.pipeError.Some? {
      WrappingSpeaksFor("open worker pipes: ", p.pipeError.value, "");
      return Some(Wrapped("open worker pipes: ", p.pipeError.value, "")), child, None;
    }
    if p.startError.Some? {
      WrappingSpeaksFor("start worker: ", p.startError.value, "");
      return Some(Wrapped("start worker: ", p.startError.value, "")), child, None;
    }
    var stdin := new Conn([], p.stdinRoom, None, p.brokenPipe);
    var writeErr := Write(stdin, wire.request, req);
    if writeErr.None? {
      writeErr := p.closeError;
    }
    var output;
    output, direct := RunChild(k, share, wire, req, p, stdin.outgoing);
    if writeErr.Some? {
      FailureSpeaksFor("write worker request: ", writeErr.value, p);
      return Some(WorkerFailure("write worker request: ", writeErr.value, p)), child, direct;
    }
    err := Collect(wire, p, output, Reply(direct));
    ProxyIsTransparent(if direct.Some? then direct.value else None);
  }

  /** The parent reads the answer and waits for the child to end. */
  method Collect(wire: Wire, p: Process, output: Bytes, ghost reply: Response) returns (err: Option<Error>)
    requires p.Valid() && Exact(wire.response, reply) && SentBy(wire.response, reply, output)
    ensures err.None? ==> reply.ok
    ensures p.waitError.Some? ==> SpeaksFor(err, p.waitError.value)
    ensures p.waitError.None? && Unsendable(wire.response, reply).None?
            && output == Frame(wire.response.marshal(reply).value) ==>
              err == Returned(reply)
  {
    ArrivesOrNot(wire.response, reply, output);
    var stdout := new Conn(p.cut(output), Some(0), None, p.brokenPipe);
    var resp := Read(stdout, wire.response);
    if resp.Err? {
      FailureSpeaksFor("read worker response: ", resp.error, p);
      return Some(WorkerFailure("read worker response: ", resp.error, p));
    }
    if p.waitError.Some? {
      WrappingSpeaksFor("worker failed: ", p.waitError.value, if |p.stderr| > 0 then p.Stderr() else "");
      return Some(Wrapped("worker failed: ", p.waitError.value, if |p.stderr| > 0 then p.Stderr() else ""));
    }
    err := Returned(resp.value);
  }

  // ---------------------------------------------------------------------------------------------
  // Who carries a request out
  // ---------------------------------------------------------------------------------------------

  /** Whether a request is carried out at all: without tokens any of version 1, with tokens a sound one with a token. */
  predicate Admitted(tokens: Option<TokenMap>, req: Request) {
    match tokens
    case None => req.version == 1
    case Some(tokenMap) => WellFormed(req) && req.version == 2 && tokenMap.Resolve(req.token).Some?
  }

  /**
   * The answer to a request, case by case: served by the daemon itself, refused and not carried out, or served by a
   * worker, whose answer is passed on if the worker fares well.
   */
  ghost predicate Decided(wire: Wire, tokens: Option<TokenMap>, req: Request, p: Process, reply: Response,
                          direct: Option<Option<Error>>)
  {
    var refused := (text: string) => direct.None? && reply == FailureResponse(EInval, text);
    && (tokens.None? && req.version == 1 ==> direct.Some? && reply == ResponseFromError(direct.value))
    && (tokens.None? && req.version != 1 && WellFormed(req) ==> refused("token authentication is not configured"))
    && ((tokens.Some? || req.version != 1) && !WellFormed(req) ==> refused(Complaint(req)))
    && (tokens.Some? && req.version == 1 && WellFormed(req) ==>
          refused("token-authenticated requests require protocol version 2"))
    && (tokens.Some? && req.version == 2 && WellFormed(req) ==>
          if tokens.value.Resolve(req.token).None? then
            direct.None? && reply == FailureResponse(EPerm, "invalid authentication token")
          else
            p.Normal() && Unsendable(wire.request, req).None? ==>
              && direct.Some?
              && (Unsendable(wire.response, ResponseFromError(direct.value)).None? ==>
                    reply == ResponseFromError(direct.value)))
  }

  /** The entry whose token a request bears. */
  ghost predicate Bears(entries: seq<Entry>, req: Request, i: nat) {
    i < |entries| && TrimSpace(entries[i].token) == req.token
  }

  /**
   * With tokens configured, a request is carried out exactly if it is a well-formed version 2 request bearing the token
   * of one entry; and whoever acts as the identity found acts as exactly that entry's user, group and set of groups.
   */
  lemma {:induction false} TokenDecidesAccount(entries: seq<Entry>, tokens: TokenMap, req: Request, i: nat, a: Account)
    requires InOrder(entries) && Indexes(tokens.identities, entries)
    ensures Admitted(Some(tokens), req) <==> WellFormed(req) && req.version == 2 && exists j :: Bears(entries, req, j)
    ensures Bears(entries, req, i) && Admitted(Some(tokens), req) ==>
              && Complete(entries[i])
              && (ActsAs(a, tokens.Resolve(req.token).value) <==>
                    && a.uid == entries[i].uid.value && a.gid == entries[i].gid.value
                    && GroupSet(a.gid, a.groups) == GroupSet(entries[i].gid.value, entries[i].groups))
  {
    assert tokens.Resolve(req.token) == Scan(entries, req.token);
    SomeEntryBears(entries, req);
    if i < |entries| {
      EntryDecidesAccount(entries, i, a);
    }
  }

  lemma SomeEntryBears(entries: seq<Entry>, req: Request)
    requires InOrder(entries)
    ensures Scan(entries, req.token).Some? <==> exists j :: Bears(entries, req, j)
  {
    ScanFindsTheEntry(entries, req.token);
    if j: nat :| Bears(entries, req, j) {
      assert TrimSpace(entries[j].token) == req.token;
    } else {
      forall j: nat | j < |entries| ensures TrimSpace(entries[j].token) != req.token {
        assert !Bears(entries, req, j);
      }
    }
  }

  /**
   * A request is refused with nothing touched, or the service's answer is passed on; with an account of the requested
   * identity if it went through a worker.
   */
  method DaemonExecute(k: Kernel, share: Share, wire: Wire, daemon: Account, tokens: Option<TokenMap>, req: Request,
                       p: Process)
    returns (err: Option<Error>, child: Option<Account>, ghost direct: Option<Option<Error>>)
    requires k.Valid() && RootIsPlain(k.nodes, share.processDir, share.root)
    requires Admitted(tokens, req) ==> EndsIfStarted(k.nodes, share.processDir, share.root, req)
    requires p.Valid() && Exact(wire.request, req) && (forall r: Response :: Exact(wire.response, r))
    requires forall g :: g in daemon.groups ==> 0 <= g < 0x1_0000_0000
    modifies k`nodes, k`mine, k`clock
    ensures k.Valid()
    ensures direct.None? ==> k.nodes == old(k.nodes)
    ensures direct.Some? ==>
              Executed(old(k.nodes), k.nodes, CallsSince(k, old(k.clock), old(k.Admits())), share.processDir,
                  share.root, req, direct.value)
    ensures err.None? ==> direct == Some(None)
    ensures tokens.None? && req.version != 1 ==> err.Some? && k.nodes == old(k.nodes)
    ensures Decided(wire, tokens, req, p, ResponseFromError(err), direct)
    ensures child.Some? <==> tokens.Some? && Admitted(tokens, req)
    ensures child.Some? ==> ActsAs(child.value, tokens.value.Resolve(req.token).value)
  {
    hide Executed;
    child, direct := None, None;
    if tokens.None? {
      if req.version != VERSION1 {
        err := ValidateRequest(req);
        if err.None? {
          err := Some(NewError(EInval, "token authentication is not configured"));
        }
        return;
      }
      err := Execute(k, share.processDir, share.root, req);
      direct := Some(err);
      return;
    }
    err := ValidateRequest(req);
    if err.Some? {
      return;
    }
    if req.version != VERSION2 {
      err := Some(NewError(EInval, "token-authenticated requests require protocol version 2"));
      return;
    }
    var identity := tokens.value.Resolve(req.token);
    if identity.None? {
      err := Some(NewError(EPerm, "invalid authentication token"));
      return;
    }
    var account;
    err, account, direct := CommandWorkerExecute(k, share, wire, daemon, identity.value, req, p);
    child := Some(account);
  }

  // ---------------------------------------------------------------------------------------------
  // A connection
  // ---------------------------------------------------------------------------------------------

  /** What was read from a connection is answered; `direct` is None if the service was not asked. */
  ghost predicate Served(share: Share, wire: Wire, tokens: Option<TokenMap>, read: Result<Request, Error>, p: Process,
                         s: Tree, s': Tree, calls: Calls, reply: Response, direct: Option<Option<Error>>)
  {
    && (direct.None? ==> s' == s)
    && (reply.ok ==> direct == Some(None))
    && match read
       case Err(_) => direct.None? && reply == FailureResponse(EInval, "invalid request")
       case Ok(req) =>
         && (direct.Some? ==> Executed(s, s', calls, share.processDir, share.root, req, direct.value))
         && (tokens.None? && req.version != 1 ==> !reply.ok && s' == s)
         && Decided(wire, tokens, req, p, reply, direct)
  }

  /** The handler of requests: the response is the one for the executor's answer. */
  method Handle(k: Kernel, share: Share, wire: Wire, daemon: Account, tokens: Option<TokenMap>,
                read: Result<Request, Error>, p: Process)
    returns (resp: Response, ghost direct: Option<Option<Error>>)
    requires k.Valid() && RootIsPlain(k.nodes, share.processDir, share.root)
    requires p.Valid() && (forall r: Response :: Exact(wire.response, r))
    requires read.Ok? ==>
               && Exact(wire.request, read.value)
               && (Admitted(tokens, read.value) ==> EndsIfStarted(k.nodes, share.processDir, share.root, read.value))
    requires forall g :: g in daemon.groups ==> 0 <= g < 0x1_0000_0000
    modifies k`nodes, k`mine, k`clock
    ensures k.Valid()
    ensures Served(share, wire, tokens, read, p, old(k.nodes), k.nodes,
                   CallsSince(k, old(k.clock), old(k.Admits())), resp, direct)
  {
    if read.Err? {
      return ResponseFromError(Some(InvalidRequest(read.error))), None;
    }
    var err, child;
    err, child, direct := DaemonExecute(k, share, wire, daemon, tokens, read.value, p);
    resp := ResponseFromError(err);
  }

  /** The response goes out, or the beginning of it, and the connection is closed. */
  method WriteResponse(conn: Conn, wire: Wire, resp: Response)
    modifies conn`outgoing, conn`room, conn`closed
    ensures conn.closed
    ensures old(conn.outgoing) <= conn.outgoing && SentBy(wire.response, resp, conn.outgoing[|old(conn.outgoing)|..])
    ensures old(conn.room).None? && Unsendable(wire.response, resp).None? ==>
              conn.outgoing == old(conn.outgoing) + Frame(wire.response.marshal(resp).value)
  {
    var writeErr := Write(conn, wire.response, resp);
    conn.Close();
  }

  /**
   * One request is read, at most one response is sent, and the connection is closed. The response is the one for the
   * executor's answer; a message that cannot be read is answered EINVAL and touches nothing.
   */
  method HandleConn(k: Kernel, share: Share, wire: Wire, daemon: Account, tokens: Option<TokenMap>, conn: Conn,
                    p: Process)
    returns (ghost reply: Response, ghost direct: Option<Option<Error>>)
    requires k.Valid() && RootIsPlain(k.nodes, share.processDir, share.root)
    requires p.Valid() && (forall r: Response :: Exact(wire.response, r))
    requires var parsed := ParseFrame(wire.request, MAX_PAYLOAD_SIZE, Flat(conn.incoming), conn.broken).value;
             parsed.Ok? ==>
               && Exact(wire.request, parsed.value)
               && (Admitted(tokens, parsed.value) ==>
                     EndsIfStarted(k.nodes, share.processDir, share.root, parsed.value))
    requires forall g :: g in daemon.groups ==> 0 <= g < 0x1_0000_0000
    modifies k`nodes, k`mine, k`clock, conn
    ensures k.Valid() && conn.closed
    ensures Flat(conn.incoming)
            == ParseFrame(wire.request, MAX_PAYLOAD_SIZE, old(Flat(conn.incoming)), conn.broken).rest
    ensures old(conn.outgoing) <= conn.outgoing && SentBy(wire.response, reply, conn.outgoing[|old(conn.outgoing)|..])
    ensures old(conn.room).None? && Unsendable(wire.response, reply).None? ==>
              conn.outgoing == old(conn.outgoing) + Frame(wire.response.marshal(reply).value)
    ensures Served(share, wire, tokens,
                   ParseFrame(wire.request, MAX_PAYLOAD_SIZE, old(Flat(conn.incoming)), conn.broken).value, p,
                   old(k.nodes), k.nodes, CallsSince(k, old(k.clock), old(k.Admits())), reply, direct)
  {
    var req := Read(conn, wire.request);
    var resp;
    resp, direct := Handle(k, share, wire, daemon, tokens, req, p);
    reply := resp;
    WriteResponse(conn, wire, resp);
  }
}
