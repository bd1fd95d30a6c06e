/**
 * internal/framing/framing.go: one value per frame, a big-endian 32-bit length before its JSON text.
 *
 * JSON itself is a parameter. A connection hands bytes over in pieces of any size; nothing here depends on the pieces.
 */
module Framing {
  import opened Wrappers
  import opened Protocol

  type Byte = b: int | 0 <= b < 256
  type Bytes = seq<Byte>

  const HEADER_SIZE := 4
  const MAX_PAYLOAD_SIZE := 0x10_0000

  const EOF := Leaf(Opaque, "EOF")
  const UNEXPECTED_EOF := Leaf(Opaque, "unexpected EOF")
  const TRAILING := Leaf(Opaque, "unexpected trailing JSON")

  function TooLarge(size: nat): Error { Leaf(Opaque, "frame too large: " + Decimal(size)) }

  /** The JSON coder: `decode` reads one value and returns what follows it; `blank` says that no other value follows. */
  datatype Codec<!V> = Codec(marshal: V -> Result<Bytes, Error>, decode: Bytes -> Result<(V, Bytes), Error>,
                             blank: Bytes -> bool)

  function DecodeAll<V>(codec: Codec<V>, payload: Bytes): Result<V, Error> {
    match codec.decode(payload)
    case Err(e) => Err(e)
    case Ok((value, rest)) => if codec.blank(rest) then Ok(value) else Err(TRAILING)
  }

  /** The value has a text, the text is within the limit, and it is read back as the same value. */
  ghost predicate Carries<V>(codec: Codec<V>, value: V) {
    var text := codec.marshal(value);
    text.Ok? && |text.value| <= MAX_PAYLOAD_SIZE && DecodeAll(codec, text.value) == Ok(value)
  }

  // ---------------------------------------------------------------------------------------------
  // Lengths
  // ---------------------------------------------------------------------------------------------

  function BigEndian(n: nat): (b: Bytes)
    requires n < 0x1_0000_0000
    ensures |b| == HEADER_SIZE
  {
    [n / 0x100 / 0x100 / 0x100, n / 0x100 / 0x100 % 0x100, n / 0x100 % 0x100, n % 0x100]
  }

  function FromBigEndian(b: Bytes): (n: nat)
    requires |b| == HEADER_SIZE
    ensures n < 0x1_0000_0000
  {
    b[0] as int * 0x100_0000 + b[1] as int * 0x1_0000 + b[2] as int * 0x100 + b[3] as int
  }

  /** Both ways: no length is lost, and every header is the header of one length. */
  lemma LengthRoundTrip(n: nat, b: Bytes)
    ensures n < 0x1_0000_0000 ==>
              var header := BigEndian(n);
              && FromBigEndian(header) == n
              && header[0] as int * 0x100_0000 + header[1] as int * 0x1_0000 + header[2] as int * 0x100
                 + header[3] as int == n
    ensures |b| == HEADER_SIZE ==> BigEndian(FromBigEndian(b)) == b
  {
    if |b| == HEADER_SIZE {
      var m := FromBigEndian(b);
      assert m / 0x100 == b[0] as int * 0x1_0000 + b[1] as int * 0x100 + b[2] as int;
      assert m / 0x100 / 0x100 == b[0] as int * 0x100 + b[1] as int;
    }
  }

  // ---------------------------------------------------------------------------------------------
  // What a stream of bytes says
  // ---------------------------------------------------------------------------------------------

  function Frame(payload: Bytes): Bytes
    requires |payload| < 0x1_0000_0000
  {
    BigEndian(|payload|) + payload
  }

  /** A value, or why there is none, and the bytes not consumed. */
  datatype Parsed<+V> = Parsed(value: Result<V, Error>, rest: Bytes)

  /** `io.ReadFull` came to the end early: `broken` is a failure of the connection, None an orderly end. */
  function ShortRead(got: Bytes, broken: Option<Error>): Error {
    if broken.Some? then broken.value else if got == [] then EOF else UNEXPECTED_EOF
  }

  function ParseFrame<V>(codec: Codec<V>, limit: nat, bytes: Bytes, broken: Option<Error>): Parsed<V> {
    if |bytes| < HEADER_SIZE then Parsed(Err(ShortRead(bytes, broken)), [])
    else
      var size, body := FromBigEndian(bytes[..HEADER_SIZE]), bytes[HEADER_SIZE..];
      if size > limit then Parsed(Err(TooLarge(size)), body)
      else if |body| < size then Parsed(Err(ShortRead(body, broken)), [])
      else Parsed(DecodeAll(codec, body[..size]), body[size..])
  }

  /** Reading `n` values in a row. */
  ghost function ParseMany<V>(codec: Codec<V>, bytes: Bytes, n: nat): Parsed<seq<V>> {
    if n == 0 then Parsed(Ok([]), bytes)
    else
      var first := ParseFrame(codec, MAX_PAYLOAD_SIZE, bytes, None);
      if first.value.Err? then Parsed(Err(first.value.error), first.rest)
      else
        var others := ParseMany(codec, first.rest, n - 1);
        if others.value.Err? then others else Parsed(Ok([first.value.value] + others.value.value), others.rest)
  }

  /** The frames of some values, one after the other. */
  ghost function Frames<V>(codec: Codec<V>, values: seq<V>): Bytes
    requires forall i | 0 <= i < |values| :: Carries(codec, values[i])
  {
    if values == [] then []
    else
      assert Carries(codec, values[0]);
      Frame(codec.marshal(values[0]).value) + Frames(codec, values[1..])
  }

  lemma FrameParts(payload: Bytes, rest: Bytes)
    requires |payload| < 0x1_0000_0000
    ensures var all := Frame(payload) + rest;
            && all[..HEADER_SIZE] == BigEndian(|payload|) && FromBigEndian(all[..HEADER_SIZE]) == |payload|
            && all[HEADER_SIZE..] == payload + rest
            && all[HEADER_SIZE..][..|payload|] == payload && all[HEADER_SIZE..][|payload|..] == rest
  {
    LengthRoundTrip(|payload|, []);
  }

  /** A frame is read back, whatever follows it and however the connection ends; exactly its bytes are consumed. */
  lemma FrameRoundTrip<V>(codec: Codec<V>, limit: nat, value: V, rest: Bytes, broken: Option<Error>)
    requires Carries(codec, value) && |codec.marshal(value).value| <= limit
    ensures ParseFrame(codec, limit, Frame(codec.marshal(value).value) + rest, broken) == Parsed(Ok(value), rest)
  {
    FrameParts(codec.marshal(value).value, rest);
  }

  /** Any list of values survives the trip. */
  lemma {:induction false} StreamRoundTrip<V>(codec: Codec<V>, values: seq<V>, rest: Bytes)
    requires forall i | 0 <= i < |values| :: Carries(codec, values[i])
    ensures ParseMany(codec, Frames(codec, values) + rest, |values|) == Parsed(Ok(values), rest)
  {
    if values == [] {
      assert [] + rest == rest;
    } else {
      var head, tail := Frame(codec.marshal(values[0]).value), Frames(codec, values[1..]);
      assert head + tail + rest == head + (tail + rest);
      FrameRoundTrip(codec, MAX_PAYLOAD_SIZE, values[0], tail + rest, None);
      StreamRoundTrip(codec, values[1..], rest);
      assert [values[0]] + values[1..] == values;
    }
  }

  /**
   * No proper prefix of a frame is accepted. A stream cut inside the header or the payload is told from one that ended;
   * a stream cut exactly after the header of a non-empty payload is not: it reads as an orderly end.
   */
  lemma TruncatedFrame<V>(codec: Codec<V>, limit: nat, payload: Bytes, cut: nat)
    requires |payload| <= limit < 0x1_0000_0000 && cut < |Frame(payload)|
    ensures ParseFrame(codec, limit, Frame(payload)[..cut], None).value
         == Err(if cut == 0 || cut == HEADER_SIZE then EOF else UNEXPECTED_EOF)
  {
    var bytes := Frame(payload)[..cut];
    if cut >= HEADER_SIZE {
      FrameParts(payload, []);
      assert bytes[..HEADER_SIZE] == (Frame(payload) + [])[..HEADER_SIZE];
      assert |bytes[HEADER_SIZE..]| == cut - HEADER_SIZE;
    }
  }

  /**
   * Every accepted frame is the frame of one payload within the limit, which decodes to the value; whatever else had
   * followed, the same would have been read. So the reader never looks beyond 4 plus length bytes.
   */
  lemma AcceptedIsFrame<V>(codec: Codec<V>, limit: nat, bytes: Bytes, broken: Option<Error>, other: Bytes)
      returns (payload: Bytes)
    requires limit < 0x1_0000_0000 && ParseFrame(codec, limit, bytes, broken).value.Ok?
    ensures |payload| <= limit && bytes == Frame(payload) + ParseFrame(codec, limit, bytes, broken).rest
    ensures DecodeAll(codec, payload) == ParseFrame(codec, limit, bytes, broken).value
    ensures ParseFrame(codec, limit, Frame(payload) + other, None)
         == Parsed(ParseFrame(codec, limit, bytes, broken).value, other)
  {
    var size, body := FromBigEndian(bytes[..HEADER_SIZE]), bytes[HEADER_SIZE..];
    payload := body[..size];
    LengthRoundTrip(0, bytes[..HEADER_SIZE]);
    assert bytes == bytes[..HEADER_SIZE] + (body[..size] + body[size..]);
    FrameParts(payload, other);
  }

  /**
   * Why a whole frame is not accepted: its payload is longer than 1 MiB, and then only the header is consumed; or it is
   * no JSON; or something else follows the value in it.
   */
  lemma FrameVerdict<V>(codec: Codec<V>, payload: Bytes, rest: Bytes, broken: Option<Error>)
    requires |payload| < 0x1_0000_0000
    ensures var parsed := ParseFrame(codec, MAX_PAYLOAD_SIZE, Frame(payload) + rest, broken);
            && (|payload| > 1024 * 1024 ==>
                  && parsed.value == Err(Leaf(Opaque, "frame too large: " + Decimal(|payload|)))
                  && parsed.rest == payload + rest)
            && (|payload| <= 1024 * 1024 ==>
                  && parsed.rest == rest
                  && match codec.decode(payload)
                     case Err(e) => parsed.value == Err(e)
                     case Ok((value, more)) =>
                       if codec.blank(more) then parsed.value == Ok(value)
                       else parsed.value == Err(Leaf(Opaque, "unexpected trailing JSON")))
  {
    FrameParts(payload, rest);
  }

  /** Frames are told apart by their bytes: none is the beginning of another. */
  lemma FramesAreSelfDelimiting(p: Bytes, q: Bytes, restP: Bytes, restQ: Bytes)
    requires |p| < 0x1_0000_0000 && |q| < 0x1_0000_0000
    requires Frame(p) + restP == Frame(q) + restQ
    ensures p == q && restP == restQ
  {
    FrameParts(p, restP);
    FrameParts(q, restQ);
  }

  // ---------------------------------------------------------------------------------------------
  // Connections
  // ---------------------------------------------------------------------------------------------

  /** All bytes of some pieces. */
  ghost function Flat(chunks: seq<Bytes>): Bytes {
    if chunks == [] then [] else chunks[0] + Flat(chunks[1..])
  }

  lemma FlatCons(chunk: Bytes, chunks: seq<Bytes>)
    ensures Flat([chunk] + chunks) == chunk + Flat(chunks)
  {
    assert ([chunk] + chunks)[1..] == chunks;
  }

  /** One end of a connection or pipe: what will arrive, piece by piece, and what was sent. */
  class Conn {
    var incoming: seq<Bytes>
    var outgoing: Bytes
    /** How many more bytes can be sent; None is no limit. */
    var room: Option<nat>
    var closed: bool
    /** What a read reports after the last piece; None is an orderly end. */
    const broken: Option<Error>
    /** What a write reports when it does not fit. */
    const sendError: Error

    constructor (incoming: seq<Bytes>, room: Option<nat>, broken: Option<Error>, sendError: Error)
      ensures this.incoming == incoming && this.room == room && this.broken == broken && this.sendError == sendError
      ensures outgoing == [] && !closed
    {
      this.incoming, this.outgoing, this.room, this.broken, this.sendError := incoming, [], room, broken, sendError;
      this.closed := false;
    }

    method Close()
      modifies `closed
      ensures closed
    {
      closed := true;
    }

    /** How much of `p` a write sends. */
    ghost function Sent(p: Bytes): nat
      reads this
    {
      if room.Some? && room.value < |p| then room.value else |p|
    }

    /** One read: some of the next piece, into the buffer from `start` on. */
    method Read(buf: array<Byte>, start: nat) returns (n: nat, err: Option<Error>)
      requires start <= buf.Length
      modifies buf, `incoming
      ensures start + n <= buf.Length && buf[..start] == old(buf[..start])
      ensures buf[start..start + n] + Flat(incoming) == old(Flat(incoming))
      ensures err.Some? <==> old(incoming) == []
      ensures err.Some? ==> incoming == [] && n == 0 && err.value == ShortRead([], broken)
      ensures err.None? ==> |incoming| < |old(incoming)| || (|incoming| == |old(incoming)| && start + n == buf.Length)
    {
      if incoming == [] {
        return 0, Some(if broken.Some? then broken.value else EOF);
      }
      var chunk, later := incoming[0], incoming[1..];
      n := if |chunk| <= buf.Length - start then |chunk| else buf.Length - start;
      forall i | 0 <= i < n {
        buf[start + i] := chunk[i];
      }
      assert buf[start..start + n] == chunk[..n];
      incoming := if n < |chunk| then [chunk[n..]] + later else later;
      err := None;
      FlatCons(chunk[n..], later);
      assert chunk == chunk[..n] + chunk[n..];
      if n == |chunk| {
        assert chunk[..n] == chunk;
      } else {
        assert chunk[..n] + (chunk[n..] + Flat(later)) == chunk + Flat(later);
      }
    }

    /** `io.ReadFull`: fill the buffer, from as many pieces as it takes. */
    method ReadFull(buf: array<Byte>) returns (err: Option<Error>)
      modifies buf, `incoming
      ensures err == if buf.Length <= |old(Flat(incoming))| then None else Some(ShortRead(old(Flat(incoming)), broken))
      ensures err.None? ==>
                buf[..] == old(Flat(incoming))[..buf.Length] && Flat(incoming) == old(Flat(incoming))[buf.Length..]
      ensures err.Some? ==> incoming == []
    {
      var n: nat := 0;
      err := None;
      while n < buf.Length && err.None?
        invariant n <= buf.Length
        invariant buf[..n] + Flat(incoming) == old(Flat(incoming))
        invariant err.Some? ==> incoming == [] && err.value == ShortRead([], broken) && n < buf.Length
        decreases if err.None? then 1 else 0, |incoming|, buf.Length - n
      {
        ghost var before := buf[..n];
        var got;
        got, err := Read(buf, n);
        assert buf[..n + got] == before + buf[n..n + got];
        n := n + got;
      }
      assert err.Some? ==> buf[..n] + [] == old(Flat(incoming)) && buf[..n] == old(Flat(incoming));
      if err.Some? && broken.None? && n > 0 {
        err := Some(UNEXPECTED_EOF);
      }
      assert buf[..buf.Length] == buf[..];
    }

    /** `Write` of an `io.Writer`. */
    method Send(p: Bytes) returns (err: Option<Error>)
      modifies `outgoing, `room
      ensures outgoing == old(outgoing) + p[..old(Sent(p))]
      ensures room == if old(room).None? then None else Some(old(room).value - old(Sent(p)))
      ensures err == if old(Sent(p)) == |p| then None else Some(sendError)
    {
      if room.Some? && room.value < |p| {
        outgoing := outgoing + p[..room.value];
        room := Some(0);
        return Some(sendError);
      }
      outgoing := outgoing + p;
      room := if room.Some? then Some(room.value - |p|) else None;
      err := None;
    }
  }

  /** `binary.BigEndian.PutUint32`. */
  method PutUint32(b: array<Byte>, n: nat)
    requires b.Length == HEADER_SIZE && n < 0x1_0000_0000
    modifies b
    ensures b[..] == BigEndian(n)
  {
    b[0] := n / 0x100 / 0x100 / 0x100;
    b[1] := n / 0x100 / 0x100 % 0x100;
    b[2] := n / 0x100 % 0x100;
    b[3] := n % 0x100;
  }

  /** Why a value is not sent at all. */
  function Unsendable<V>(codec: Codec<V>, value: V): Option<Error> {
    match codec.marshal(value)
    case Err(e) => Some(e)
    case Ok(payload) => if |payload| > MAX_PAYLOAD_SIZE then Some(TooLarge(|payload|)) else None
  }

  /** A value is sent exactly if it has a text of at most 1 MiB, and a longer one is refused as too large. */
  lemma SendableMeans<V>(codec: Codec<V>, value: V)
    ensures Unsendable(codec, value).None? <==>
              codec.marshal(value).Ok? && |codec.marshal(value).value| <= 1024 * 1024
    ensures codec.marshal(value).Ok? && Unsendable(codec, value).Some? ==>
              Unsendable(codec, value).value
              == Leaf(Opaque, "frame too large: " + Decimal(|codec.marshal(value).value|))
  {
  }

  /** Nothing is sent, or the value's one frame, or as much of it as the connection takes. */
  method Write<V>(conn: Conn, codec: Codec<V>, value: V) returns (err: Option<Error>)
    modifies conn`outgoing, conn`room
    ensures Unsendable(codec, value).Some? ==>
              err == Unsendable(codec, value) && conn.outgoing == old(conn.outgoing) && conn.room == old(conn.room)
    ensures Unsendable(codec, value).None? ==>
              var frame := Frame(codec.marshal(value).value);
              && conn.outgoing == old(conn.outgoing) + frame[..old(conn.Sent(frame))]
              && err == if old(conn.Sent(frame)) == |frame| then None else Some(conn.sendError)
  {
    var marshalled := codec.marshal(value);
    if marshalled.Err? {
      return Some(marshalled.error);
    }
    var payload := marshalled.value;
    if |payload| > MAX_PAYLOAD_SIZE {
      return Some(TooLarge(|payload|));
    }
    var header := new Byte[HEADER_SIZE];
    PutUint32(header, |payload|);
    ghost var frame, sent := Frame(payload), conn.Sent(Frame(payload));
    err := conn.Send(header[..]);
    if err.Some? {
      assert frame[..sent] == header[..][..sent];
      return;
    }
    err := conn.Send(payload);
    assert frame[..sent] == header[..] + payload[..sent - HEADER_SIZE];
  }

  /** One frame is read; what is read, and what is left, depend on the bytes and not on how they were cut up. */
  method ReadWithLimit<V>(conn: Conn, codec: Codec<V>, limit: nat) returns (r: Result<V, Error>)
    requires limit < 0x1_0000_0000
    modifies conn`incoming
    ensures var parsed := ParseFrame(codec, limit, old(Flat(conn.incoming)), conn.broken);
            r == parsed.value && Flat(conn.incoming) == parsed.rest
  {
    ghost var bytes := Flat(conn.incoming);
    var header := new Byte[HEADER_SIZE];
    var err := conn.ReadFull(header);
    if err.Some? {
      return Err(err.value);
    }
    var size := FromBigEndian(header[..]);
    if size > limit {
      return Err(TooLarge(size));
    }
    var payload := new Byte[size];
    err := conn.ReadFull(payload);
    if err.Some? {
      return Err(err.value);
    }
    assert payload[..] == bytes[HEADER_SIZE..][..size];
    var first := codec.decode(payload[..]);
    if first.Err? {
      return Err(first.error);
    }
    var (value, rest) := first.value;
    if !codec.blank(rest) {
      return Err(TRAILING);
    }
    r := Ok(value);
  }

  method Read<V>(conn: Conn, codec: Codec<V>) returns (r: Result<V, Error>)
    modifies conn`incoming
    ensures var parsed := ParseFrame(codec, MAX_PAYLOAD_SIZE, old(Flat(conn.incoming)), conn.broken);
            r == parsed.value && Flat(conn.incoming) == parsed.rest
  {
    r := ReadWithLimit(conn, codec, MAX_PAYLOAD_SIZE);
  }
}
