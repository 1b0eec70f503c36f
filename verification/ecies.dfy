/** The ECIES engine the codec drives (src/ecies/algorithm.rs, which is not
    part of this model). Its cryptography is abstract: every operation is a
    function, supplied in a `Crypto` record, of an opaque secret state `S`
    (keys, nonces, running MACs) and its input, returning the new secret state.
    What the codec relies on is concrete: the `parse_*` operations can fail,
    `parse_auth` teaches the engine the remote id, `parse_header` sets the body
    length, and the header length is a constant. */
module Ecies {
  import opened Wrappers
  import opened Bytes

  /** A peer is identified by its 64-byte public key id. */
  type PeerId = H512

  /** A secp256k1 secret key, as the engine receives it. */
  type SecretKey = seq<Byte>

  /** An error the engine reports; its contents are the engine's business. */
  datatype EciesError = EciesError(reason: string)

  /** Size of an encrypted frame header: 16 bytes of header and a 16-byte MAC. */
  const HeaderLen: nat := 32

  /** The engine's cryptographic operations. */
  datatype Crypto<!S> = Crypto(
    newServer: SecretKey -> Result<S, EciesError>,
    newClient: (SecretKey, PeerId) -> Result<S, EciesError>,
    parseAuth: (S, seq<Byte>) -> (S, Result<PeerId, EciesError>),
    parseAck: (S, seq<Byte>) -> (S, Outcome<EciesError>),
    // on success, the number of wire bytes of the body the header announces
    parseHeader: (S, seq<Byte>) -> (S, Result<nat, EciesError>),
    parseBody: (S, seq<Byte>) -> (S, Result<seq<Byte>, EciesError>),
    createAuth: S -> (S, seq<Byte>),
    createAck: S -> (S, seq<Byte>),
    createHeader: (S, nat) -> (S, seq<Byte>),
    createBody: (S, seq<Byte>) -> (S, seq<Byte>))

  /** The engine's state as the codec sees it: the secrets, the remote id that
      a successful `parse_auth` learned (a client engine's dialled id is kept
      inside the secrets, not here), and the body length the last decoded
      header announced. */
  datatype ECIES<S> = ECIES(secrets: S, remoteId: Option<PeerId>, bodyLen: Option<nat>)

  function Fresh<S>(secrets: S): ECIES<S> {
    ECIES(secrets, None, None)
  }

  function ParseAuth<S>(c: Crypto<S>, e: ECIES<S>, data: seq<Byte>): (ECIES<S>, Outcome<EciesError>) {
    var (s, res) := c.parseAuth(e.secrets, data);
    match res
    case Ok(id) => (e.(secrets := s, remoteId := Some(id)), Pass)
    case Err(err) => (e.(secrets := s), Fail(err))
  }

  function ParseAck<S>(c: Crypto<S>, e: ECIES<S>, data: seq<Byte>): (ECIES<S>, Outcome<EciesError>) {
    var (s, res) := c.parseAck(e.secrets, data);
    (e.(secrets := s), res)
  }

  function ParseHeader<S>(c: Crypto<S>, e: ECIES<S>, data: seq<Byte>): (ECIES<S>, Outcome<EciesError>) {
    var (s, res) := c.parseHeader(e.secrets, data);
    match res
    case Ok(n) => (e.(secrets := s, bodyLen := Some(n)), Pass)
    case Err(err) => (e.(secrets := s), Fail(err))
  }

  function ParseBody<S>(c: Crypto<S>, e: ECIES<S>, data: seq<Byte>): (ECIES<S>, Result<seq<Byte>, EciesError>) {
    var (s, res) := c.parseBody(e.secrets, data);
    (e.(secrets := s), res)
  }

  function CreateAuth<S>(c: Crypto<S>, e: ECIES<S>): (ECIES<S>, seq<Byte>) {
    var (s, out) := c.createAuth(e.secrets);
    (e.(secrets := s), out)
  }

  function CreateAck<S>(c: Crypto<S>, e: ECIES<S>): (ECIES<S>, seq<Byte>) {
    var (s, out) := c.createAck(e.secrets);
    (e.(secrets := s), out)
  }

  function CreateHeader<S>(c: Crypto<S>, e: ECIES<S>, size: nat): (ECIES<S>, seq<Byte>) {
    var (s, out) := c.createHeader(e.secrets, size);
    (e.(secrets := s), out)
  }

  function CreateBody<S>(c: Crypto<S>, e: ECIES<S>, data: seq<Byte>): (ECIES<S>, seq<Byte>) {
    var (s, out) := c.createBody(e.secrets, data);
    (e.(secrets := s), out)
  }
}
