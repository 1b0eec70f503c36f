/** The RLPx transport codec (src/ecies/proto.rs): one state field, shared by
    the read path (`decode`) and the write path (`encode`), decides how the
    bytes of a connection are cut into handshake envelopes, frame headers and
    frame bodies; the ECIES engine does the cryptography. The accept/reject
    decisions of `ECIESStream` are modelled as functions of the decoded items. */
module Proto {
  import opened Wrappers
  import opened Bytes
  import opened Ecies

  /** `ECIESState`: what the codec expects to read next. */
  datatype ECIESState = Auth | Ack | Header | Body

  /** `EgressECIESValue`: what the codec is asked to write. */
  datatype EgressECIESValue = Auth | Ack | Message(data: seq<Byte>)

  /** `IngressECIESValue`: what the codec reads. */
  datatype IngressECIESValue = AuthReceive(id: PeerId) | Ack | Message(body: seq<Byte>)

  // ---------------------------------------------------------------------------
  // The decoding specification

  /** The codec's state and its engine, as one value. */
  datatype Snapshot<S> = Snapshot(state: ECIESState, ecies: ECIES<S>)

  /** In `Body` the engine knows how long the body is: only a successful
      `parse_header` leads there, and it sets the length. */
  predicate Consistent<S>(s: Snapshot<S>) {
    s.state == ECIESState.Body ==> s.ecies.bodyLen.Some?
  }

  /** The total size of a handshake envelope whose first two bytes are
      `hi`, `lo`: the big-endian u16 payload size plus the 2 prefix bytes. */
  function EnvelopeLen(hi: Byte, lo: Byte): (n: nat)
    ensures n == FromBE([hi, lo]) + 2
    ensures 2 <= n <= 65537
  {
    hi * 256 + lo + 2
  }

  /** A complete handshake envelope: its size prefix describes its own length. */
  predicate IsEnvelope(e: seq<Byte>) {
    |e| >= 2 && |e| == EnvelopeLen(e[0], e[1])
  }

  /** The state the codec reaches when the unit it decodes is accepted. */
  function Successor(st: ECIESState): ECIESState {
    match st
    case Auth => ECIESState.Header
    case Ack => ECIESState.Header
    case Header => ECIESState.Body
    case Body => ECIESState.Header
  }

  /** Which item a state may yield: `Auth` an `AuthReceive`, `Ack` an `Ack`,
      `Body` a `Message`, and `Header` nothing. */
  predicate Yields(st: ECIESState, item: IngressECIESValue) {
    match st
    case Auth => item.AuthReceive?
    case Ack => item.Ack?
    case Header => false
    case Body => item.Message?
  }

  /** The number of bytes a complete unit has in state `s.state`, once it can
      be told: for a handshake envelope only after its 2-byte prefix. */
  function UnitLen<S>(s: Snapshot<S>, buf: seq<Byte>): Option<nat>
    requires Consistent(s)
  {
    match s.state
    case Auth | Ack => if |buf| < 2 then None else Some(EnvelopeLen(buf[0], buf[1]))
    case Header => Some(HeaderLen)
    case Body => s.ecies.bodyLen
  }

  /** Whether `buf` starts with a complete unit for the current state. */
  predicate Complete<S>(s: Snapshot<S>, buf: seq<Byte>)
    requires Consistent(s)
  {
    UnitLen(s, buf).Some? && UnitLen(s, buf).value <= |buf|
  }

  /** Whether the engine accepts `frame` as the unit of state `s.state`. */
  predicate EngineAccepts<S>(c: Crypto<S>, s: Snapshot<S>, frame: seq<Byte>) {
    match s.state
    case Auth => c.parseAuth(s.ecies.secrets, frame).1.Ok?
    case Ack => c.parseAck(s.ecies.secrets, frame).1.Pass?
    case Header => c.parseHeader(s.ecies.secrets, frame).1.Ok?
    case Body => c.parseBody(s.ecies.secrets, frame).1.Ok?
  }

  /** One `decode` call: the state and engine after it, the bytes it cut off
      the front and handed to the engine, the bytes left, and its result. */
  datatype Step<S> = Step(
    next: Snapshot<S>,
    frame: seq<Byte>,
    rest: seq<Byte>,
    out: Result<Option<IngressECIESValue>, EciesError>)

  /** The engine's part of a decode: `data`, the unit cut off the front, is
      parsed according to the state; `rest` is what stays in the buffer. */
  function Consume<S>(c: Crypto<S>, s: Snapshot<S>, data: seq<Byte>, rest: seq<Byte>): (r: Step<S>)
    requires Consistent(s)
    ensures Consistent(r.next) && r.frame == data && r.rest == rest
    ensures r.out.Ok? <==> EngineAccepts(c, s, data)
    ensures r.next.state == if r.out.Ok? then Successor(s.state) else s.state
    ensures r.out.Ok? ==> (r.out.value.Some? <==> !s.state.Header?)
    ensures r.out.Ok? && r.out.value.Some? ==> Yields(s.state, r.out.value.value)
    ensures r.out.Ok? && r.out.value.Some? && r.out.value.value.AuthReceive? ==>
      r.next.ecies.remoteId == Some(r.out.value.value.id) &&
      c.parseAuth(s.ecies.secrets, data).1 == Ok(r.out.value.value.id)
    ensures r.out.Ok? && r.out.value.Some? && r.out.value.value.Message? ==>
      c.parseBody(s.ecies.secrets, data).1 == Ok(r.out.value.value.body)
  {
    match s.state
    case Auth =>
      var (e, res) := ParseAuth(c, s.ecies, data);
      if res.Fail? then Step(Snapshot(s.state, e), data, rest, Err(res.error))
      else Step(Snapshot(ECIESState.Header, e), data, rest, Ok(Some(IngressECIESValue.AuthReceive(e.remoteId.value))))
    case Ack =>
      var (e, res) := ParseAck(c, s.ecies, data);
      if res.Fail? then Step(Snapshot(s.state, e), data, rest, Err(res.error))
      else Step(Snapshot(ECIESState.Header, e), data, rest, Ok(Some(IngressECIESValue.Ack)))
    case Header =>
      var (e, res) := ParseHeader(c, s.ecies, data);
      if res.Fail? then Step(Snapshot(s.state, e), data, rest, Err(res.error))
      else Step(Snapshot(ECIESState.Body, e), data, rest, Ok(None))
    case Body =>
      var (e, res) := ParseBody(c, s.ecies, data);
      if res.Err? then Step(Snapshot(s.state, e), data, rest, Err(res.error))
      else Step(Snapshot(ECIESState.Header, e), data, rest, Ok(Some(IngressECIESValue.Message(res.value))))
  }

  /** One `decode` call: wait while the unit of the current state is
      incomplete, otherwise cut exactly that unit off the front and let the
      engine parse it (`Consume` says what follows from the engine's answer). */
  function DecodeStep<S>(c: Crypto<S>, s: Snapshot<S>, buf: seq<Byte>): (r: Step<S>)
    requires Consistent(s)
    ensures Consistent(r.next)
    // not enough data: nothing is consumed, nothing changes, nothing is yielded
    ensures !Complete(s, buf) ==> r == Step(s, [], buf, Ok(None))
    // a complete unit: exactly its bytes come off the front (and go to the
    // engine, see `Consume`), and the rest stays in order
    ensures Complete(s, buf) ==> buf == r.frame + r.rest && |r.frame| == UnitLen(s, buf).value
    // in the handshake states the unit is a whole envelope, size prefix included
    ensures Complete(s, buf) && (s.state.Auth? || s.state.Ack?) ==> IsEnvelope(r.frame)
  {
    if !Complete(s, buf) then Step(s, [], buf, Ok(None))
    else
      var n := UnitLen(s, buf).value;
      assert buf == buf[..n] + buf[n..];
      Consume(c, s, buf[..n], buf[n..])
  }

  // ---------------------------------------------------------------------------
  // The encoding specification

  /** One `encode` call: the state and engine after it, and the bytes it appends. */
  datatype Emit<S> = Emit(next: Snapshot<S>, out: seq<Byte>)

  function EncodeStep<S>(c: Crypto<S>, s: Snapshot<S>, item: EgressECIESValue): (e: Emit<S>)
    requires Consistent(s)
    ensures Consistent(e.next)
    // sending `Auth` makes the codec wait for the `Ack`, sending `Ack` for
    // frames; sending a message does not touch the state
    ensures e.next.state == match item
      case Auth => ECIESState.Ack
      case Ack => ECIESState.Header
      case Message(_) => s.state
    // the write path never changes what the read path learned
    ensures e.next.ecies.remoteId == s.ecies.remoteId && e.next.ecies.bodyLen == s.ecies.bodyLen
    // a message goes out as the header for its length immediately followed by its body
    ensures item.Message? ==>
      var (s1, h) := c.createHeader(s.ecies.secrets, |item.data|);
      e.out == h + c.createBody(s1, item.data).1
    ensures item.Auth? ==> e.out == c.createAuth(s.ecies.secrets).1
    ensures item.Ack? ==> e.out == c.createAck(s.ecies.secrets).1
  {
    match item
    case Auth =>
      var (e, data) := CreateAuth(c, s.ecies);
      Emit(Snapshot(ECIESState.Ack, e), data)
    case Ack =>
      var (e, data) := CreateAck(c, s.ecies);
      Emit(Snapshot(ECIESState.Header, e), data)
    case Message(data) =>
      var (e1, header) := CreateHeader(c, s.ecies, |data|);
      var (e2, body) := CreateBody(c, e1, data);
      Emit(Snapshot(s.state, e2), header + body)
  }

  // ---------------------------------------------------------------------------
  // The codec

  /** `ECIESCodec`: the engine and the state field. */
  class ECIESCodec<S> {
    const crypto: Crypto<S>
    var ecies: ECIES<S>
    var state: ECIESState

    ghost predicate Valid()
      reads this
    {
      Consistent(Snapshot(state, ecies))
    }

    ghost function Snap(): Snapshot<S>
      reads this
    {
      Snapshot(state, ecies)
    }

    constructor (crypto: Crypto<S>, secrets: S)
      ensures Valid() && this.crypto == crypto
      ensures state == ECIESState.Auth && ecies == Fresh(secrets)
    {
      this.crypto := crypto;
      ecies := Fresh(secrets);
      state := ECIESState.Auth;
    }

    /** `new_server`: a codec in state `Auth`, unless the engine cannot be built. */
    static method NewServer(crypto: Crypto<S>, secretKey: SecretKey) returns (r: Result<ECIESCodec<S>, EciesError>)
      ensures r.Ok? <==> crypto.newServer(secretKey).Ok?
      ensures r.Err? ==> r.error == crypto.newServer(secretKey).error
      ensures r.Ok? ==> fresh(r.value) && r.value.Valid() && r.value.crypto == crypto
      ensures r.Ok? ==> r.value.state == ECIESState.Auth && r.value.ecies == Fresh(crypto.newServer(secretKey).value)
    {
      var engine := crypto.newServer(secretKey);
      if engine.Err? {
        return Err(engine.error);
      }
      var codec := new ECIESCodec(crypto, engine.value);
      return Ok(codec);
    }

    /** `new_client`: a codec in state `Auth`, unless the engine cannot be built. */
    static method NewClient(crypto: Crypto<S>, secretKey: SecretKey, remoteId: PeerId) returns (r: Result<ECIESCodec<S>, EciesError>)
      ensures r.Ok? <==> crypto.newClient(secretKey, remoteId).Ok?
      ensures r.Err? ==> r.error == crypto.newClient(secretKey, remoteId).error
      ensures r.Ok? ==> fresh(r.value) && r.value.Valid() && r.value.crypto == crypto
      ensures r.Ok? ==> r.value.state == ECIESState.Auth && r.value.ecies == Fresh(crypto.newClient(secretKey, remoteId).value)
    {
      var engine := crypto.newClient(secretKey, remoteId);
      if engine.Err? {
        return Err(engine.error);
      }
      var codec := new ECIESCodec(crypto, engine.value);
      return Ok(codec);
    }

    /** `decode`: try to take one unit off the front of `buf`. */
    method Decode(buf: BytesMut) returns (r: Result<Option<IngressECIESValue>, EciesError>)
      requires Valid()
      modifies this, buf
      ensures Valid()
      ensures var step := DecodeStep(crypto, old(Snap()), old(buf.bytes));
        Snap() == step.next && buf.bytes == step.rest && r == step.out
    {
      match state
      case Auth =>
        if |buf.bytes| < 2 {
          return Ok(None);
        }
        var total := EnvelopeLen(buf.bytes[0], buf.bytes[1]);
        if |buf.bytes| < total {
          return Ok(None);
        }
        var data := buf.SplitTo(total);
        var (e, res) := ParseAuth(crypto, ecies, data);
        ecies := e;
        if res.Fail? {
          return Err(res.error);
        }
        state := ECIESState.Header;
        return Ok(Some(IngressECIESValue.AuthReceive(ecies.remoteId.value)));
      case Ack =>
        if |buf.bytes| < 2 {
          return Ok(None);
        }
        var total := EnvelopeLen(buf.bytes[0], buf.bytes[1]);
        if |buf.bytes| < total {
          return Ok(None);
        }
        var data := buf.SplitTo(total);
        var (e, res) := ParseAck(crypto, ecies, data);
        ecies := e;
        if res.Fail? {
          return Err(res.error);
        }
        state := ECIESState.Header;
        return Ok(Some(IngressECIESValue.Ack));
      case Header =>
        if |buf.bytes| < HeaderLen {
          return Ok(None);
        }
        var data := buf.SplitTo(HeaderLen);
        var (e, res) := ParseHeader(crypto, ecies, data);
        ecies := e;
        if res.Fail? {
          return Err(res.error);
        }
        state := ECIESState.Body;
        return Ok(None);
      case Body =>
        if |buf.bytes| < ecies.bodyLen.value {
          return Ok(None);
        }
        var data := buf.SplitTo(ecies.bodyLen.value);
        var (e, res) := ParseBody(crypto, ecies, data);
        ecies := e;
        if res.Err? {
          return Err(res.error);
        }
        state := ECIESState.Header;
        return Ok(Some(IngressECIESValue.Message(res.value)));
    }

    /** `encode`: append the bytes for `item` to `buf`; it never fails. */
    method Encode(item: EgressECIESValue, buf: BytesMut)
      requires Valid()
      modifies this, buf
      ensures Valid()
      ensures var emit := EncodeStep(crypto, old(Snap()), item);
        Snap() == emit.next && buf.bytes == old(buf.bytes) + emit.out
    {
      match item
      case Auth =>
        var (e, data) := CreateAuth(crypto, ecies);
        ecies := e;
        state := ECIESState.Ack;
        buf.ExtendFromSlice(data);
      case Ack =>
        var (e, data) := CreateAck(crypto, ecies);
        ecies := e;
        state := ECIESState.Header;
        buf.ExtendFromSlice(data);
      case Message(data) =>
        var (e1, header) := CreateHeader(crypto, ecies, |data|);
        ecies := e1;
        buf.ExtendFromSlice(header);
        var (e2, body) := CreateBody(crypto, ecies, data);
        ecies := e2;
        buf.ExtendFromSlice(body);
    }
  }

  // ---------------------------------------------------------------------------
  // The stream's accept/reject decisions

  /** An I/O error on the stream: the transport failed, the codec failed, or
      the stream received something other than a message after the handshake. */
  datatype IoError =
    | Transport(reason: string)
    | Codec(error: EciesError)
    | ProtocolError(received: Result<IngressECIESValue, IoError>)

  /** Why a handshake was refused. */
  datatype HandshakeError =
    | InvalidHandshake                                       // `connect` could not build its codec
    | Setup(cause: EciesError)                               // `incoming` could not build its codec
    | Io(failure: IoError)                                   // sending or receiving failed
    | UnexpectedMessage(received: Option<IngressECIESValue>) // the first item was the wrong one, or none came

  /** An established `ECIESStream`, as far as its callers can observe it. */
  datatype Session = Session(remoteId: PeerId)

  /** `ECIESStream::connect`: build a client codec, send `Auth`, and accept
      only if the first thing read is an `Ack`. The remote id is the one the
      caller dialled. */
  function Connect(setup: Outcome<EciesError>, sent: Outcome<IoError>, first: Result<Option<IngressECIESValue>, IoError>, remoteId: PeerId): (r: Result<Session, HandshakeError>)
    ensures r.Ok? <==> setup.Pass? && sent.Pass? && first == Ok(Some(IngressECIESValue.Ack))
    ensures r.Ok? ==> r.value.remoteId == remoteId
    ensures setup.Fail? ==> r == Err(InvalidHandshake)
    ensures setup.Pass? && sent.Pass? && first.Ok? && first.value != Some(IngressECIESValue.Ack) ==>
      r == Err(UnexpectedMessage(first.value))
  {
    if setup.Fail? then Err(InvalidHandshake)
    else if sent.Fail? then Err(Io(sent.error))
    else if first.Err? then Err(Io(first.error))
    else if first.value == Some(IngressECIESValue.Ack) then Ok(Session(remoteId))
    else Err(UnexpectedMessage(first.value))
  }

  /** `ECIESStream::incoming`: build a server codec, accept only if the first
      thing read is an `AuthReceive`, then send `Ack`. The remote id is the one
      the auth message carried. */
  function Incoming(setup: Outcome<EciesError>, first: Result<Option<IngressECIESValue>, IoError>, sent: Outcome<IoError>): (r: Result<Session, HandshakeError>)
    ensures r.Ok? <==> setup.Pass? && first.Ok? && first.value.Some? && first.value.value.AuthReceive? && sent.Pass?
    ensures r.Ok? ==> r.value.remoteId == first.value.value.id
    ensures setup.Pass? && first.Ok? && !(first.value.Some? && first.value.value.AuthReceive?) ==>
      r == Err(UnexpectedMessage(first.value))
  {
    if setup.Fail? then Err(Setup(setup.error))
    else if first.Err? then Err(Io(first.error))
    else match first.value
      case Some(AuthReceive(id)) =>
        if sent.Fail? then Err(Io(sent.error)) else Ok(Session(id))
      case other => Err(UnexpectedMessage(other))
  }

  /** `ECIESStream::poll_next`: after the handshake only message bodies pass;
      anything else the codec yields, an error included, becomes a protocol
      error that carries it, and the end of the stream stays the end. */
  function PollNext(next: Option<Result<IngressECIESValue, IoError>>): (r: Option<Result<seq<Byte>, IoError>>)
    ensures r.None? <==> next.None?
    ensures forall body :: r == Some(Ok(body)) <==> next == Some(Ok(IngressECIESValue.Message(body)))
    ensures r.Some? && r.value.Err? ==> r.value.error == ProtocolError(next.value)
  {
    match next
    case Some(Ok(Message(body))) => Some(Ok(body))
    case Some(other) => Some(Err(ProtocolError(other)))
    case None => None
  }

  // ---------------------------------------------------------------------------
  // Properties of decoding

  /** Every byte string shorter than a complete envelope, the prefix included,
      makes a handshake decode wait. */
  lemma WaitsForWholeEnvelope<S>(c: Crypto<S>, s: Snapshot<S>, env: seq<Byte>, k: nat)
    requires Consistent(s) && (s.state.Auth? || s.state.Ack?)
    requires IsEnvelope(env) && k < |env|
    ensures DecodeStep(c, s, env[..k]) == Step(s, [], env[..k], Ok(None))
  {
    if k >= 2 {
      assert env[..k][0] == env[0] && env[..k][1] == env[1];
    }
  }

  /** What the peer's `encode` appended as a handshake envelope is what a
      handshake decode cuts off and hands to the engine, and nothing more. */
  lemma EnvelopeDelivered<S>(c: Crypto<S>, s: Snapshot<S>, env: seq<Byte>, rest: seq<Byte>)
    requires Consistent(s) && (s.state.Auth? || s.state.Ack?)
    requires IsEnvelope(env)
    ensures DecodeStep(c, s, env + rest).frame == env
    ensures DecodeStep(c, s, env + rest).rest == rest
  {
    var buf := env + rest;
    assert buf[0] == env[0] && buf[1] == env[1];
    assert buf[..|env|] == env && buf[|env|..] == rest;
  }

  /** In `Header` a successful decode consumes the header and advances to
      `Body`, but yields `Ok(None)`, the same result as "not enough data";
      a complete body may already be buffered behind it. */
  lemma HeaderAdvancesSilently<S>(c: Crypto<S>, s: Snapshot<S>, buf: seq<Byte>)
    requires Consistent(s) && s.state.Header? && |buf| >= HeaderLen
    requires c.parseHeader(s.ecies.secrets, buf[..HeaderLen]).1.Ok?
    ensures DecodeStep(c, s, buf).out == Ok(None)
    ensures DecodeStep(c, s, buf).next.state == ECIESState.Body
    ensures DecodeStep(c, s, buf).rest == buf[HeaderLen..]
  {
  }

  /** A frame on the wire, a header the engine accepts followed by the body it
      announces, decodes in two calls to the message the engine recovers. */
  lemma FrameDelivered<S>(c: Crypto<S>, s: Snapshot<S>, header: seq<Byte>, body: seq<Byte>, rest: seq<Byte>)
    requires Consistent(s) && s.state.Header? && |header| == HeaderLen
    requires c.parseHeader(s.ecies.secrets, header).1 == Ok(|body|)
    ensures var r1 := DecodeStep(c, s, header + body + rest);
      var r2 := DecodeStep(c, r1.next, r1.rest);
      r1.out == Ok(None) && r1.next.state == ECIESState.Body &&
      r2.frame == body && r2.rest == rest &&
      (r2.out.Ok? <==> c.parseBody(r1.next.ecies.secrets, body).1.Ok?) &&
      (r2.out.Ok? ==> r2.out.value == Some(IngressECIESValue.Message(c.parseBody(r1.next.ecies.secrets, body).1.value)))
  {
    var buf := header + body + rest;
    assert buf[..HeaderLen] == header;
    assert buf[HeaderLen..] == body + rest;
    assert (body + rest)[..|body|] == body && (body + rest)[|body|..] == rest;
  }

  /** A decode that has a complete unit ignores the bytes behind it: with more
      bytes appended, it does the same and leaves them in place. */
  lemma DecodeStepExtend<S>(c: Crypto<S>, s: Snapshot<S>, buf: seq<Byte>, more: seq<Byte>)
    requires Consistent(s) && Complete(s, buf)
    ensures Complete(s, buf + more)
    ensures var r := DecodeStep(c, s, buf);
      DecodeStep(c, s, buf + more) == Step(r.next, r.frame, r.rest + more, r.out)
  {
    var n := UnitLen(s, buf).value;
    var ext := buf + more;
    if s.state.Auth? || s.state.Ack? {
      assert ext[0] == buf[0] && ext[1] == buf[1];
    }
    assert UnitLen(s, ext) == UnitLen(s, buf);
    assert ext[..n] == buf[..n];
    assert ext[n..] == buf[n..] + more;
    ConsumeIgnoresRest(c, s, buf[..n], buf[n..], buf[n..] + more);
  }

  /** What follows the unit plays no part in consuming it. */
  lemma ConsumeIgnoresRest<S>(c: Crypto<S>, s: Snapshot<S>, data: seq<Byte>, rest: seq<Byte>, other: seq<Byte>)
    requires Consistent(s)
    ensures Consume(c, s, data, other) == Consume(c, s, data, rest).(rest := other)
  {
  }

  // ---------------------------------------------------------------------------
  // Repeated decoding

  /** What repeated `decode` calls on a buffer produce, until one waits for
      more bytes or fails: the final state, the items in order, the bytes
      left, and the error, if any. */
  datatype Drained<S> = Drained(
    last: Snapshot<S>,
    items: seq<IngressECIESValue>,
    rest: seq<Byte>,
    error: Option<EciesError>)

  function Rank(st: ECIESState): nat {
    if st.Body? then 1 else 0
  }

  /** Calls `decode` while it makes progress. Every call that has a complete
      unit consumes bytes, except a `Body` call for an empty body, which moves
      to `Header`; so the buffer length and the rank of the state decrease. */
  function Drain<S>(c: Crypto<S>, s: Snapshot<S>, buf: seq<Byte>): (d: Drained<S>)
    requires Consistent(s)
    ensures Consistent(d.last)
    // draining stops without error only when the next unit is incomplete
    ensures d.error.None? ==> !Complete(d.last, d.rest)
    decreases |buf|, Rank(s.state)
  {
    if !Complete(s, buf) then Drained(s, [], buf, None)
    else
      var r := DecodeStep(c, s, buf);
      if r.out.Err? then Drained(r.next, [], r.rest, Some(r.out.error))
      else
        var d := Drain(c, r.next, r.rest);
        Drained(d.last, Yielded(r) + d.items, d.rest, d.error)
  }

  /** The item a successful decode yields, as a sequence of zero or one items. */
  function Yielded<S>(r: Step<S>): seq<IngressECIESValue>
    requires r.out.Ok?
  {
    if r.out.value.Some? then [r.out.value.value] else []
  }

  /** `d` with `items` read before it. */
  function Prepend<S>(items: seq<IngressECIESValue>, d: Drained<S>): Drained<S> {
    d.(items := items + d.items)
  }

  /** A clean drain of a buffer that starts with a complete unit: the first
      decode succeeded, and the rest is a drain from where it left off. */
  lemma DrainFirst<S>(c: Crypto<S>, s: Snapshot<S>, buf: seq<Byte>)
    requires Consistent(s) && Complete(s, buf) && Drain(c, s, buf).error.None?
    ensures var r := DecodeStep(c, s, buf);
      r.out.Ok? && Drain(c, s, buf) == Prepend(Yielded(r), Drain(c, r.next, r.rest))
  {
  }

  /** Appending bytes to a buffer whose first unit decodes cleanly leaves that
      first decode alone and drains the rest with the bytes appended. */
  lemma DrainFirstExtended<S>(c: Crypto<S>, s: Snapshot<S>, buf: seq<Byte>, more: seq<Byte>)
    requires Consistent(s) && Complete(s, buf) && DecodeStep(c, s, buf).out.Ok?
    ensures var r := DecodeStep(c, s, buf);
      Drain(c, s, buf + more) == Prepend(Yielded(r), Drain(c, r.next, r.rest + more))
  {
    DecodeStepExtend(c, s, buf, more);
  }

  /** Bytes may arrive in any split: draining `b1`, appending `b2` to what is
      left and draining again yields the same items, state and leftover as
      draining `b1 + b2` at once (as long as the first part decoded cleanly). */
  lemma {:induction false} DrainAppend<S>(c: Crypto<S>, s: Snapshot<S>, b1: seq<Byte>, b2: seq<Byte>)
    requires Consistent(s)
    requires Drain(c, s, b1).error.None?
    ensures var d1 := Drain(c, s, b1);
      Drain(c, s, b1 + b2) == Prepend(d1.items, Drain(c, d1.last, d1.rest + b2))
    decreases |b1|, Rank(s.state), 1
  {
    if !Complete(s, b1) {
      assert Drain(c, s, b1) == Drained(s, [], b1, None);
    } else {
      DrainAppendStep(c, s, b1, b2);
    }
  }

  /** `DrainAppend` when `b1` starts with a complete unit. */
  lemma {:induction false} DrainAppendStep<S>(c: Crypto<S>, s: Snapshot<S>, b1: seq<Byte>, b2: seq<Byte>)
    requires Consistent(s) && Complete(s, b1)
    requires Drain(c, s, b1).error.None?
    ensures var d1 := Drain(c, s, b1);
      Drain(c, s, b1 + b2) == Prepend(d1.items, Drain(c, d1.last, d1.rest + b2))
    decreases |b1|, Rank(s.state), 0
  {
    var r := DecodeStep(c, s, b1);
    DrainFirst(c, s, b1);
    DrainFirstExtended(c, s, b1, b2);
    DrainAppend(c, r.next, r.rest, b2);
    var d1 := Drain(c, s, b1);
    var inner1 := Drain(c, r.next, r.rest);
    var d2 := Drain(c, inner1.last, inner1.rest + b2);
    PrependTwice(Yielded(r), inner1, Drain(c, r.next, r.rest + b2), d2);
  }

  lemma PrependTwice<S>(items: seq<IngressECIESValue>, first: Drained<S>, inner: Drained<S>, d2: Drained<S>)
    requires inner == Prepend(first.items, d2)
    ensures Prepend(items, inner) == Prepend(Prepend(items, first).items, d2)
  {
    assert items + (first.items + d2.items) == (items + first.items) + d2.items;
  }

  /** What a codec reads is shaped by where it starts: from `Auth` or `Ack`
      the first item is the handshake item of that state and every later one
      a message; from `Header` or `Body`, every item is a message. */
  lemma {:induction false} DrainShape<S>(c: Crypto<S>, s: Snapshot<S>, buf: seq<Byte>)
    requires Consistent(s)
    ensures var d := Drain(c, s, buf);
      (forall i :: 0 < i < |d.items| ==> d.items[i].Message?) &&
      (|d.items| > 0 ==> if s.state.Auth? || s.state.Ack? then Yields(s.state, d.items[0]) else d.items[0].Message?)
    decreases |buf|, Rank(s.state)
  {
    if Complete(s, buf) {
      var r := DecodeStep(c, s, buf);
      if r.out.Ok? {
        DrainShape(c, r.next, r.rest);
      }
    }
  }

  // ---------------------------------------------------------------------------
  // The codec and the stream together

  /** Both roles reach `Header` after the handshake: the client by sending
      `Auth` and then reading the `Ack`, the server by reading the auth message
      and then sending `Ack`. */
  lemma HandshakeRoles<S>(c: Crypto<S>, s: Snapshot<S>, buf: seq<Byte>)
    requires Consistent(s) && s.state.Auth?
    ensures var client := EncodeStep(c, s, EgressECIESValue.Auth).next;
      client.state.Ack? &&
      (DecodeStep(c, client, buf).out == Ok(Some(IngressECIESValue.Ack)) ==>
        DecodeStep(c, client, buf).next.state.Header?)
    ensures var r := DecodeStep(c, s, buf);
      r.out.Ok? && r.out.value.Some? ==>
        r.out.value.value.AuthReceive? &&
        EncodeStep(c, r.next, EgressECIESValue.Ack).next.state.Header?
  {
  }

  /** A client that has sent `Auth` is accepted by `connect` as soon as it has
      decoded anything: the first item its codec can yield is the `Ack`. */
  lemma ConnectAcceptsFirstItem<S>(c: Crypto<S>, s: Snapshot<S>, buf: seq<Byte>, remoteId: PeerId)
    requires Consistent(s) && s.state.Ack?
    requires |Drain(c, s, buf).items| > 0
    ensures Connect(Pass, Pass, Ok(Some(Drain(c, s, buf).items[0])), remoteId) == Ok(Session(remoteId))
  {
    DrainShape(c, s, buf);
  }

  /** A server codec's first item is an `AuthReceive`, so `incoming` accepts
      it (once `Ack` is sent) with the id that message carried, which is the
      remote id the engine has learned. */
  lemma IncomingAcceptsFirstItem<S>(c: Crypto<S>, s: Snapshot<S>, buf: seq<Byte>)
    requires Consistent(s) && s.state.Auth?
    requires |Drain(c, s, buf).items| > 0
    ensures Drain(c, s, buf).items[0].AuthReceive?
    ensures Incoming(Pass, Ok(Some(Drain(c, s, buf).items[0])), Pass) == Ok(Session(Drain(c, s, buf).items[0].id))
    ensures DecodeStep(c, s, buf).next.ecies.remoteId == Some(Drain(c, s, buf).items[0].id)
  {
    DrainShape(c, s, buf);
  }

  /** After the handshake every item the codec yields reaches the stream's
      reader as the message body it carries, never as a protocol error. */
  lemma SessionPassesMessages<S>(c: Crypto<S>, s: Snapshot<S>, buf: seq<Byte>, i: nat)
    requires Consistent(s) && (s.state.Header? || s.state.Body?)
    requires i < |Drain(c, s, buf).items|
    ensures Drain(c, s, buf).items[i].Message?
    ensures PollNext(Some(Ok(Drain(c, s, buf).items[i]))) == Some(Ok(Drain(c, s, buf).items[i].body))
  {
    DrainShape(c, s, buf);
  }
}
