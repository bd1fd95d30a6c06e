/**
 * internal/client/client.go: one request from the guest, and the race between the goroutine that dials, the caller that
 * may give up waiting, and the goroutine that then disposes of a connection nobody wants.
 */
module Client {
  import opened Wrappers
  import opened Protocol
  import opened Framing

  // ---------------------------------------------------------------------------------------------
  // The race
  // ---------------------------------------------------------------------------------------------

  /** What is in an interface value that ought to hold a connection; a nil pointer in it is not the nil interface. */
  datatype Handed = NilInterface | NilPointer | Open

  /** What the dial function returned; nothing keeps one supplied from outside from returning both, or neither. */
  datatype Outcome = Outcome(conn: Handed, err: bool)

  datatype Dialer = Dialing | Sending(outcome: Outcome) | DialerDone
  datatype Caller = Selecting | Using | CallerDone
  datatype Drainer = NotStarted | Waiting | DrainerDone

  /**
   * `slot` is the channel of capacity one. `made` and `closed` count connections. A method called on what is no
   * connection is a panic, which ends the process.
   */
  datatype Race = Race(dialer: Dialer, slot: Option<Outcome>, cancelled: bool, caller: Caller, drainer: Drainer,
                       made: nat, closed: nat, crashed: bool)

  datatype Move = Dial(outcome: Outcome) | Send | Cancel | TakeResult | GiveUp | Drain | Finish

  const START := Race(Dialing, None, false, Selecting, NotStarted, 0, 0, false)

  function Count(conn: Handed): nat { if conn.Open? then 1 else 0 }

  /** One goroutine takes one step; None if it cannot. */
  function Step(r: Race, m: Move): Option<Race> {
    if r.crashed then None
    else
      match m
      case Dial(outcome) =>
        if r.dialer.Dialing? then Some(r.(dialer := Sending(outcome), made := r.made + Count(outcome.conn))) else None
      case Send =>
        // A send to a full channel blocks.
        if r.dialer.Sending? && r.slot.None? then Some(r.(dialer := DialerDone, slot := Some(r.dialer.outcome)))
        else None
      case Cancel =>
        Some(r.(cancelled := true))
      case TakeResult =>
        if r.caller.Selecting? && r.slot.Some? then Some(Take(r.(slot := None), r.slot.value)) else None
      case GiveUp =>
        if r.caller.Selecting? && r.cancelled then Some(r.(caller := CallerDone, drainer := Waiting)) else None
      case Drain =>
        if r.drainer.Waiting? && r.slot.Some? then
          Some(r.(slot := None, drainer := DrainerDone, closed := r.closed + Count(r.slot.value.conn),
                  crashed := r.slot.value.conn.NilPointer?))
        else None
      case Finish =>
        if r.caller.Using? then Some(r.(caller := CallerDone, closed := r.closed + 1)) else None
  }

  /** A result with an error is returned without its connection being looked at; another's connection is used. */
  function Take(r: Race, result: Outcome): Race {
    if result.err then r.(caller := CallerDone)
    else if result.conn.Open? then r.(caller := Using)
    else r.(crashed := true)
  }

  /** Any schedule. */
  function Run(moves: seq<Move>): Option<Race> {
    if moves == [] then Some(START)
    else
      var before := Run(moves[..|moves| - 1]);
      if before.None? then None else Step(before.value, moves[|moves| - 1])
  }

  /** Nothing is left to do but to cancel what is over. */
  ghost predicate Over(r: Race) {
    forall m :: m != Cancel ==> Step(r, m).None?
  }

  predicate Both(o: Outcome) { o.conn.Open? && o.err }

  /** Where everybody can be; `lost` counts connections that came with an error to a caller still waiting. */
  ghost predicate RaceInv(r: Race, lost: nat) {
    if r.crashed then Fresh(r, 0, lost) && r.slot.None? && r.dialer.DialerDone? && !r.caller.Using?
    else
      match r.drainer
      case NotStarted =>
        if r.slot.Some? then r.dialer.DialerDone? && r.caller.Selecting? && Fresh(r, Count(r.slot.value.conn), lost)
        else if !r.dialer.DialerDone? then r.caller.Selecting? && Fresh(r, Dialed(r.dialer), lost)
        else if r.caller.Using? then Fresh(r, 1, lost)
        else r.caller.CallerDone? && r.made == r.closed + lost <= 1
      case Waiting =>
        && r.caller.CallerDone?
        && if r.slot.Some? then r.dialer.DialerDone? && Fresh(r, Count(r.slot.value.conn), lost)
           else !r.dialer.DialerDone? && Fresh(r, Dialed(r.dialer), lost)
      case DrainerDone =>
        r.dialer.DialerDone? && r.slot.None? && r.caller.CallerDone? && r.made == r.closed <= 1 && lost == 0
  }

  /** The connection in the dialer's hands. */
  function Dialed(d: Dialer): nat {
    match d
    case Sending(outcome) => Count(outcome.conn)
    case _ => 0
  }

  /** So many connections made, and nothing closed or lost. */
  predicate Fresh(r: Race, made: nat, lost: nat) {
    r.made == made && r.closed == 0 && lost == 0
  }

  ghost function Lost(r: Race, m: Move): nat {
    if m.TakeResult? && r.slot.Some? && Both(r.slot.value) then 1 else 0
  }

  lemma StepKeepsInv(r: Race, m: Move, lost: nat, r': Race)
    requires RaceInv(r, lost) && Step(r, m) == Some(r')
    ensures RaceInv(r', lost + Lost(r, m))
  {
  }

  /** The caller took a result that was both a connection and an error. */
  ghost function LostIn(moves: seq<Move>): nat
    requires Run(moves).Some?
  {
    if moves == [] then 0
    else LostIn(moves[..|moves| - 1]) + Lost(Run(moves[..|moves| - 1]).value, moves[|moves| - 1])
  }

  lemma {:induction false} RaceInvAlways(moves: seq<Move>)
    requires Run(moves).Some?
    ensures RaceInv(Run(moves).value, LostIn(moves))
  {
    if moves != [] {
      RaceInvAlways(moves[..|moves| - 1]);
      StepKeepsInv(Run(moves[..|moves| - 1]).value, moves[|moves| - 1], LostIn(moves[..|moves| - 1]), Run(moves).value);
    }
  }

  /** The dial function never returns a connection together with an error. */
  ghost predicate DialsCleanly(moves: seq<Move>) {
    forall m :: m in moves && m.Dial? ==> !Both(m.outcome)
  }

  ghost predicate CleanSoFar(r: Race) {
    && (r.dialer.Sending? ==> !Both(r.dialer.outcome))
    && (r.slot.Some? ==> !Both(r.slot.value))
  }

  lemma StepKeepsClean(r: Race, m: Move, r': Race)
    requires CleanSoFar(r) && Step(r, m) == Some(r') && (m.Dial? ==> !Both(m.outcome))
    ensures CleanSoFar(r') && Lost(r, m) == 0
  {
  }

  /** A result in the channel is one the dial function returned. */
  lemma {:induction false} SlotWasDialed(moves: seq<Move>)
    requires Run(moves).Some? && DialsCleanly(moves)
    ensures LostIn(moves) == 0 && CleanSoFar(Run(moves).value)
  {
    if moves != [] {
      SlotWasDialed(moves[..|moves| - 1]);
      assert moves[|moves| - 1] in moves;
      StepKeepsClean(Run(moves[..|moves| - 1]).value, moves[|moves| - 1], Run(moves).value);
    }
  }

  /** Everything is over exactly when all three goroutines have ended or were never needed. */
  lemma OverMeans(r: Race, lost: nat)
    requires RaceInv(r, lost)
    ensures Over(r) <==> r.crashed || (r.dialer.DialerDone? && r.slot.None? && r.caller.CallerDone?)
    ensures Over(r) <==> StepsLeft(r) == 0
    ensures Over(r) ==> r.made == r.closed + lost
    ensures r.closed <= r.made <= 1 && (r.caller.Using? ==> r.made == 1 && r.closed == 0)
  {
    if Over(r) {
      assert Step(r, Dial(Outcome(NilInterface, false))).None?;
      assert Step(r, Send).None? && Step(r, TakeResult).None? && Step(r, Drain).None? && Step(r, Finish).None?;
    }
  }

  /**
   * Under every schedule, at most one connection is ever made and none is closed twice; a connection the caller is
   * using is open; and once everything is over every connection made has been closed, except one that came with an
   * error to a caller still waiting for it.
   */
  lemma {:induction false} NoConnectionLeaks(moves: seq<Move>)
    requires Run(moves).Some?
    ensures var r := Run(moves).value;
            && r.closed <= r.made <= 1
            && (r.caller.Using? ==> r.made == 1 && r.closed == 0)
            && (Over(r) ==> r.made == r.closed + LostIn(moves))
            && (Over(r) && DialsCleanly(moves) ==> r.made == r.closed)
  {
    RaceInvAlways(moves);
    OverMeans(Run(moves).value, LostIn(moves));
    if DialsCleanly(moves) {
      SlotWasDialed(moves);
    }
  }

  /**
   * The exception is real: a connection returned together with an error is never closed if the caller was still
   * waiting.
   */
  lemma ConnectionWithErrorLeaks()
    ensures var r := Run([Dial(Outcome(Open, true)), Send, TakeResult]);
            r.Some? && Over(r.value) && r.value.made == 1 && r.value.closed == 0
  {
    var m1, m2, m3 := Dial(Outcome(Open, true)), Send, TakeResult;
    assert [m1][..0] == [] && [m1, m2][..1] == [m1] && [m1, m2, m3][..2] == [m1, m2];
    assert Run([m1]) == Step(START, m1);
    assert Run([m1, m2]) == Step(Run([m1]).value, m2);
  }

  // What a nil pointer does

  ghost function DialedIn(moves: seq<Move>): Option<Outcome> {
    if moves == [] then None
    else if moves[|moves| - 1].Dial? then Some(moves[|moves| - 1].outcome)
    else DialedIn(moves[..|moves| - 1])
  }

  /** Whoever gets this result calls a method on what is no connection. */
  predicate Deadly(o: Outcome, gaveUp: bool) {
    if gaveUp then o.conn.NilPointer? else !o.err && !o.conn.Open?
  }

  /**
   * The state tells what was dialed, whether the caller gave up, and, once the result was taken, whether it was deadly.
   */
  ghost predicate Tells(r: Race, dialed: Option<Outcome>, gaveUp: bool) {
    && (gaveUp <==> !r.drainer.NotStarted?)
    && (r.dialer.Dialing? <==> dialed.None?)
    && (r.dialer.Sending? ==> dialed == Some(r.dialer.outcome))
    && (r.slot.Some? ==> dialed == r.slot)
    && (r.crashed <==> r.dialer.DialerDone? && r.slot.None? && Deadly(dialed.value, gaveUp))
  }

  lemma StepTells(r: Race, m: Move, lost: nat, dialed: Option<Outcome>, gaveUp: bool, r': Race)
    requires RaceInv(r, lost) && Tells(r, dialed, gaveUp) && Step(r, m) == Some(r')
    ensures Tells(r', if m.Dial? then Some(m.outcome) else dialed, gaveUp || m.GiveUp?)
  {
  }

  lemma {:induction false} AlwaysTells(moves: seq<Move>)
    requires Run(moves).Some?
    ensures Tells(Run(moves).value, DialedIn(moves), GiveUp in moves)
  {
    if moves != [] {
      var before, m := moves[..|moves| - 1], moves[|moves| - 1];
      AlwaysTells(before);
      RaceInvAlways(before);
      assert moves == before + [m];
      StepTells(Run(before).value, m, LostIn(before), DialedIn(before), GiveUp in before, Run(moves).value);
    }
  }

  /**
   * When everything is over, the process has crashed exactly if the dial handed over a nil pointer and the caller had
   * given up, or had not and was handed neither an error nor a connection. With the default dial, which on failing
   * hands over the nil pointer it was given together with the error, that is: exactly if the caller gave up and the
   * dial failed.
   */
  lemma CrashesExactlyIf(moves: seq<Move>)
    requires Run(moves).Some? && Over(Run(moves).value)
    ensures DialedIn(moves).Some?
    ensures var o := DialedIn(moves).value;
            && (Run(moves).value.crashed <==> Deadly(o, GiveUp in moves))
            && (o == Outcome(NilPointer, true) || o == Outcome(Open, false) ==>
                  (Run(moves).value.crashed <==> GiveUp in moves && o.err))
  {
    RaceInvAlways(moves);
    OverMeans(Run(moves).value, LostIn(moves));
    AlwaysTells(moves);
  }

  /** It can come to that. */
  lemma FailedDialCrashes()
    ensures var r := Run([Cancel, GiveUp] + [Dial(Outcome(NilPointer, true))] + [Send] + [Drain]);
            r.Some? && Over(r.value) && r.value.crashed
  {
    var m := [Cancel, GiveUp];
    assert m[..1] == [Cancel] && [Cancel][..0] == [];
    assert Run([Cancel]) == Step(START, Cancel) && Run(m) == Step(Run([Cancel]).value, GiveUp);
    RunOneMore(m, Dial(Outcome(NilPointer, true)));
    RunOneMore(m + [Dial(Outcome(NilPointer, true))], Send);
    RunOneMore(m + [Dial(Outcome(NilPointer, true))] + [Send], Drain);
  }

  lemma RunOneMore(moves: seq<Move>, m: Move)
    requires Run(moves).Some?
    ensures Run(moves + [m]) == Step(Run(moves).value, m)
  {
    assert (moves + [m])[..|moves|] == moves;
  }

  /** How many steps other than cancelling are still to come, at most. */
  function StepsLeft(r: Race): nat {
    if r.crashed then 0
    else
    (match r.dialer case Dialing => 2 case Sending(_) => 1 case DialerDone => 0)
    + (match r.caller case Selecting => 2 case Using => 1 case CallerDone => 0)
    + (match r.drainer case Waiting => 1 case _ => 0)
  }

  lemma StepUsesUp(r: Race, m: Move, r': Race)
    requires m != Cancel && Step(r, m) == Some(r')
    ensures StepsLeft(r') < StepsLeft(r)
  {
  }

  /**
   * No goroutine waits for ever: until everything is over some step other than cancelling is possible, and each uses up
   * one.
   */
  lemma {:induction false} RaceEnds(moves: seq<Move>, m: Move)
    requires Run(moves).Some? && m != Cancel
    ensures Step(Run(moves).value, m).Some? ==> StepsLeft(Step(Run(moves).value, m).value) < StepsLeft(Run(moves).value)
    ensures StepsLeft(Run(moves).value) == 0 <==> Over(Run(moves).value)
  {
    RaceInvAlways(moves);
    var r := Run(moves).value;
    OverMeans(r, LostIn(moves));
    if Step(r, m).Some? {
      StepUsesUp(r, m, Step(r, m).value);
    }
  }

  // ---------------------------------------------------------------------------------------------
  // A request
  // ---------------------------------------------------------------------------------------------

  /** What the caller gets from the race: a connection, or the error of the dial or of giving up. */
  method Do(req: Request, request: Codec<Request>, response: Codec<Response>, dialed: Result<Conn, Error>,
            deadlineErr: Option<Error>)
    returns (r: Result<Response, Error>)
    modifies if dialed.Ok? then {dialed.value} else {}
    ensures ValidateRequest(req).Some? ==>
              r == Err(ValidateRequest(req).value) && (dialed.Ok? ==> unchanged(dialed.value))
    ensures ValidateRequest(req).None? && dialed.Err? ==> r == Err(dialed.error)
    ensures ValidateRequest(req).None? && dialed.Ok? ==>
              var conn := dialed.value;
              && conn.closed
              && (deadlineErr.Some? ==> r == Err(deadlineErr.value) && conn.outgoing == old(conn.outgoing))
              && (deadlineErr.None? && Unsendable(request, req).Some? ==>
                    r == Err(Unsendable(request, req).value) && conn.outgoing == old(conn.outgoing))
              && (deadlineErr.None? && Unsendable(request, req).None? ==>
                    var frame := Frame(request.marshal(req).value);
                    && conn.outgoing == old(conn.outgoing) + frame[..old(conn.Sent(frame))]
                    && r == if old(conn.Sent(frame)) == |frame| then
                              ParseFrame(response, MAX_PAYLOAD_SIZE, old(Flat(conn.incoming)), conn.broken).value
                            else Err(conn.sendError))
  {
    var invalid := ValidateRequest(req);
    if invalid.Some? {
      return Err(invalid.value);
    }
    if dialed.Err? {
      return Err(dialed.error);
    }
    var conn := dialed.value;
    if deadlineErr.Some? {
      conn.Close();
      return Err(deadlineErr.value);
    }
    var writeErr := Write(conn, request, req);
    if writeErr.Some? {
      conn.Close();
      return Err(writeErr.value);
    }
    r := Read(conn, response);
    conn.Close();
  }
}
